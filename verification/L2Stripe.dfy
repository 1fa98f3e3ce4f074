/** One L2 stripe: an LRU list of entries with an index, exclusive on a hit. */
module L2Stripe {
  import opened Types
  import opened Seqs
  import opened StripePolicy
  import List = EntryList
  import Tiers = CacheEngine

  class L2Stripe {
    const entries: List.EntryList
    var hits: nat
    var misses: nat

    ghost predicate Valid()
      reads this, entries
    {
      entries.Valid()
    }

    ghost function View(): seq<Entry>
      requires Valid()
      reads this, entries
    {
      entries.View()
    }

    constructor ()
      ensures Valid() && View() == [] && fresh(entries)
    {
      entries := new List.EntryList();
      hits, misses := 0, 0;
    }

    /** `l2_get`: a hit moves the value out. */
    method Take(key: string) returns (r: Option<string>)
      requires Valid()
      modifies this, entries
      ensures Valid() && View() == Tiers.Take(old(View()), key).list && r == Tiers.Take(old(View()), key).value
      ensures hits - old(hits) == (if r.Some? then 1 else 0) && misses - old(misses) == (if r.Some? then 0 else 1)
    {
      entries.IndexMeansHas(key);
      if key !in entries.index {
        misses := misses + 1;
        return None;
      }
      var value := entries.TakeOut(key);
      hits := hits + 1;
      return Some(value);
    }

    /** The erasure in `remove`, which counts neither a hit nor a miss. */
    method Drop(key: string)
      requires Valid()
      modifies entries
      ensures Valid() && View() == Tiers.Take(old(View()), key).list
    {
      entries.IndexMeansHas(key);
      if key in entries.index {
        var _ := entries.TakeOut(key);
      }
    }

    /** `l2_put_batch` for one item. */
    method Store(capacity: nat, key: string, value: string)
      requires Valid() && capacity > 0
      modifies entries
      ensures Valid() && View() == Tiers.Store(old(View()), capacity, Entry(key, value))
    {
      entries.IndexMeansHas(key);
      if key in entries.index {
        entries.Refresh(key, value);
        return;
      }
      if |entries.list| >= capacity {
        entries.DropLast();
      }
      entries.PushNew(key, value);
    }
  }

  /** The sixteen stripes and the routing of keys to them. */
  class L2Tier {
    const stripes: seq<L2Stripe>
    const capacity: nat
    const hash: string -> nat

    ghost const repr: set<object>

    /** The stripes are well formed and share nothing. */
    ghost predicate Valid()
      reads repr
    {
      && |stripes| == Tiers.NUM_L2_STRIPES && capacity > 0
      && (forall i :: 0 <= i < |stripes| ==> stripes[i] in repr && stripes[i].entries in repr && stripes[i].Valid())
      && (forall i, j :: 0 <= i < j < |stripes| ==>
         stripes[i] != stripes[j] && stripes[i].entries != stripes[j].entries)
    }

    ghost function View(): (v: seq<seq<Entry>>)
      requires Valid()
      reads repr
      ensures |v| == Tiers.NUM_L2_STRIPES && forall i :: 0 <= i < |v| ==> v[i] == stripes[i].View()
    {
      seq(|stripes|, i
          requires 0 <= i < |stripes| && stripes[i] in repr && stripes[i].entries in repr && stripes[i].Valid()
          reads repr
        => stripes[i].View())
    }

    constructor (total: nat, hash: string -> nat)
      ensures Valid() && View() == seq(Tiers.NUM_L2_STRIPES, _ => [])
      ensures capacity == Tiers.L2Capacity(total) && this.hash == hash
      ensures fresh(repr)
    {
      var stripes, repr := NewStripes();
      this.stripes, capacity, this.hash := stripes, Tiers.L2Capacity(total), hash;
      this.repr := repr;
    }

    static method NewStripes() returns (stripes: seq<L2Stripe>, ghost repr: set<object>)
      ensures |stripes| == Tiers.NUM_L2_STRIPES && fresh(repr)
      ensures forall i :: 0 <= i < |stripes| ==>
        stripes[i] in repr && stripes[i].entries in repr && stripes[i].Valid() && stripes[i].View() == []
      ensures forall i, j :: 0 <= i < j < |stripes| ==>
        stripes[i] != stripes[j] && stripes[i].entries != stripes[j].entries
    {
      stripes, repr := [], {};
      while |stripes| < Tiers.NUM_L2_STRIPES
        invariant |stripes| <= Tiers.NUM_L2_STRIPES && fresh(repr)
        invariant forall i :: 0 <= i < |stripes| ==>
          stripes[i] in repr && stripes[i].entries in repr && stripes[i].Valid() && stripes[i].View() == []
        invariant forall i, j :: 0 <= i < j < |stripes| ==>
          stripes[i] != stripes[j] && stripes[i].entries != stripes[j].entries
      {
        var stripe := new L2Stripe();
        stripes, repr := stripes + [stripe], repr + {stripe, stripe.entries};
      }
    }

    /** `get_l2_stripe_index` */
    function Route(key: string): (i: nat)
      ensures i < Tiers.NUM_L2_STRIPES
    {
      hash(key) % Tiers.NUM_L2_STRIPES
    }

    /** Each operation works on one stripe and leaves the others alone. */
    method Take(key: string) returns (r: Option<string>)
      requires Valid()
      modifies repr
      ensures Valid()
      ensures var i := Route(key); var t := Tiers.Take(old(View())[i], key);
        View() == old(View())[i := t.list] && r == t.value
    {
      hide L2Stripe.Valid, L2Stripe.View, Tiers.Take;
      r := stripes[Route(key)].Take(key);
    }

    method Drop(key: string)
      requires Valid()
      modifies repr
      ensures Valid()
      ensures var i := Route(key); View() == old(View())[i := Tiers.Take(old(View())[i], key).list]
    {
      hide L2Stripe.Valid, L2Stripe.View, Tiers.Take;
      stripes[Route(key)].Drop(key);
    }

    method Store(key: string, value: string)
      requires Valid()
      modifies repr
      ensures Valid()
      ensures var i := Route(key); View() == old(View())[i := Tiers.Store(old(View())[i], capacity, Entry(key, value))]
    {
      hide L2Stripe.Valid, L2Stripe.View, Tiers.Store;
      stripes[Route(key)].Store(capacity, key, value);
    }
  }
}
