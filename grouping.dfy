/** Sums over loaded entries, and `groupby(<key>)["amount"].sum()`: one group per
    distinct key, keys in ascending order, each holding the sum of its entries. */
module Grouping {
  import opened Text
  import opened Ledger

  /** `Series.sum()` of the `amount` column; 0 for no entries. */
  function Sum(es: seq<Entry>): real
  {
    if es == [] then 0.0 else es[0].amount + Sum(es[1..])
  }

  /** Summing a concatenation sums the parts. */
  lemma {:induction false} SumAppend(a: seq<Entry>, b: seq<Entry>)
    ensures Sum(a + b) == Sum(a) + Sum(b)
  {
    if a == [] {
      assert a + b == b;
    } else {
      assert (a + b)[0] == a[0] && (a + b)[1..] == a[1..] + b;
      SumAppend(a[1..], b);
    }
  }

  /** Amounts are never negative, so neither is their sum. */
  lemma {:induction false} SumNonnegative(es: seq<Entry>)
    requires forall i :: 0 <= i < |es| ==> es[i].amount >= 0.0
    ensures Sum(es) >= 0.0
  {
    if es != [] {
      SumNonnegative(es[1..]);
    }
  }

  /** The sum of the amounts of the entries whose key is `k`. */
  function SumWhere(es: seq<Entry>, key: Entry -> string, k: string): real
  {
    if es == [] then 0.0
    else (if key(es[0]) == k then es[0].amount else 0.0) + SumWhere(es[1..], key, k)
  }

  /** The keys occurring in `es`. */
  function KeysOf(es: seq<Entry>, key: Entry -> string): (ks: set<string>)
    ensures forall i :: 0 <= i < |es| ==> key(es[i]) in ks
  {
    if es == [] then {} else {key(es[0])} + KeysOf(es[1..], key)
  }

  datatype Group = Group(key: string, sum: real)

  /** Group keys strictly ascending, hence distinct, as in pandas' sorted group index. */
  predicate KeysAscending(gs: seq<Group>)
  {
    forall i, j :: 0 <= i < j < |gs| ==> LexLess(gs[i].key, gs[j].key)
  }

  function Keys(gs: seq<Group>): set<string>
  {
    set i | 0 <= i < |gs| :: gs[i].key
  }

  /** The sum stored for key `k`, 0 when there is no group for it. */
  function Lookup(gs: seq<Group>, k: string): real
  {
    if gs == [] then 0.0 else if gs[0].key == k then gs[0].sum else Lookup(gs[1..], k)
  }

  /** The sum of all group sums. */
  function Total(gs: seq<Group>): real
  {
    if gs == [] then 0.0 else gs[0].sum + Total(gs[1..])
  }

  /** A key below the first key of ascending groups has no group. */
  lemma {:induction false} LookupBelow(gs: seq<Group>, k: string)
    requires KeysAscending(gs) && gs != [] && LexLess(k, gs[0].key)
    ensures k !in Keys(gs) && Lookup(gs, k) == 0.0
  {
    forall i | 0 <= i < |gs|
      ensures gs[i].key != k
    {
      if i > 0 {
        LexLessTransitive(k, gs[0].key, gs[i].key);
      }
      LexLessIrreflexive(k);
    }
    LookupAbsent(gs, k);
  }

  /** A key without a group looks up as 0. */
  lemma {:induction false} LookupAbsent(gs: seq<Group>, k: string)
    requires k !in Keys(gs)
    ensures Lookup(gs, k) == 0.0
  {
    if gs != [] {
      assert Keys(gs[1..]) <= Keys(gs) by {
        forall x | x in Keys(gs[1..]) ensures x in Keys(gs) {
          var i :| 0 <= i < |gs[1..]| && gs[1..][i].key == x;
          assert gs[i + 1].key == x;
        }
      }
      LookupAbsent(gs[1..], k);
    }
  }

  lemma KeysCons(g: Group, gs: seq<Group>)
    ensures Keys([g] + gs) == {g.key} + Keys(gs)
  {
    var s := [g] + gs;
    forall x | x in Keys(s) ensures x in {g.key} + Keys(gs) {
      var i :| 0 <= i < |s| && s[i].key == x;
      if i > 0 {
        assert gs[i - 1].key == x;
      }
    }
    forall x | x in Keys(gs) ensures x in Keys(s) {
      var i :| 0 <= i < |gs| && gs[i].key == x;
      assert s[i + 1].key == x;
    }
    assert s[0].key == g.key;
  }

  /** Every key of ascending groups is the first key or above it. */
  lemma KeysAtLeastFirst(gs: seq<Group>, x: string)
    requires KeysAscending(gs) && x in Keys(gs)
    ensures x == gs[0].key || LexLess(gs[0].key, x)
  {
  }

  /** Every key of the groups after the first lies above the first. */
  lemma KeysAboveFirst(gs: seq<Group>, x: string)
    requires KeysAscending(gs) && gs != [] && x in Keys(gs[1..])
    ensures LexLess(gs[0].key, x)
  {
    var i :| 0 <= i < |gs[1..]| && gs[1..][i].key == x;
    assert gs[i + 1].key == x;
  }

  lemma GroupsTail(gs: seq<Group>)
    requires KeysAscending(gs) && gs != []
    ensures KeysAscending(gs[1..])
  {
  }

  /** A group whose key lies below every key of ascending groups can go in front. */
  lemma GroupsCons(g: Group, gs: seq<Group>)
    requires KeysAscending(gs)
    requires forall x :: x in Keys(gs) ==> LexLess(g.key, x)
    ensures KeysAscending([g] + gs)
  {
    var r := [g] + gs;
    forall i, j | 0 <= i < j < |r| ensures LexLess(r[i].key, r[j].key) {
      assert r[j] == gs[j - 1];
      if i > 0 {
        assert r[i] == gs[i - 1];
      }
    }
  }

  /** Adds `amount` to the group of `k`, creating the group in key order if it is new. */
  function AddTo(gs: seq<Group>, k: string, amount: real): seq<Group>
  {
    if gs == [] then [Group(k, amount)]
    else if gs[0].key == k then [Group(k, gs[0].sum + amount)] + gs[1..]
    else if LexLess(k, gs[0].key) then [Group(k, amount)] + gs
    else [gs[0]] + AddTo(gs[1..], k, amount)
  }

  /** Adding gains exactly the key `k`. */
  lemma {:induction false} AddToKeys(gs: seq<Group>, k: string, amount: real)
    ensures Keys(AddTo(gs, k, amount)) == Keys(gs) + {k}
  {
    if gs == [] {
      KeysCons(Group(k, amount), []);
    } else {
      KeysCons(gs[0], gs[1..]);
      assert gs == [gs[0]] + gs[1..];
      if gs[0].key == k {
        KeysCons(Group(k, gs[0].sum + amount), gs[1..]);
      } else if LexLess(k, gs[0].key) {
        KeysCons(Group(k, amount), gs);
      } else {
        AddToKeys(gs[1..], k, amount);
        KeysCons(gs[0], AddTo(gs[1..], k, amount));
      }
    }
  }

  /** Adding keeps the keys strictly ascending. */
  lemma {:induction false} AddToAscending(gs: seq<Group>, k: string, amount: real)
    requires KeysAscending(gs)
    ensures KeysAscending(AddTo(gs, k, amount))
  {
    if gs == [] || gs[0].key == k {
    } else if LexLess(k, gs[0].key) {
      forall x | x in Keys(gs) ensures LexLess(k, x) {
        KeysAtLeastFirst(gs, x);
        if x != gs[0].key {
          LexLessTransitive(k, gs[0].key, x);
        }
      }
      GroupsCons(Group(k, amount), gs);
    } else {
      LexLessTotal(k, gs[0].key);
      GroupsTail(gs);
      AddToAscending(gs[1..], k, amount);
      AddToAboveFirst(gs, k, amount);
      GroupsCons(gs[0], AddTo(gs[1..], k, amount));
    }
  }

  /** Adding a key above the first key to the groups after it keeps every key above the first. */
  lemma AddToAboveFirst(gs: seq<Group>, k: string, amount: real)
    requires KeysAscending(gs) && gs != [] && LexLess(gs[0].key, k)
    ensures forall x :: x in Keys(AddTo(gs[1..], k, amount)) ==> LexLess(gs[0].key, x)
  {
    AddToKeys(gs[1..], k, amount);
    forall x | x in Keys(AddTo(gs[1..], k, amount)) ensures LexLess(gs[0].key, x) {
      if x != k {
        KeysAboveFirst(gs, x);
      }
    }
  }

  /** Adding raises the sum of `k` by `amount` and leaves every other key's sum alone. */
  lemma {:induction false} AddToLookup(gs: seq<Group>, k: string, amount: real, x: string)
    requires KeysAscending(gs)
    ensures Lookup(AddTo(gs, k, amount), x) == Lookup(gs, x) + (if x == k then amount else 0.0)
  {
    if gs == [] || gs[0].key == k {
    } else if LexLess(k, gs[0].key) {
      if x == k {
        LookupBelow(gs, k);
      }
    } else {
      AddToLookup(gs[1..], k, amount, x);
    }
  }

  /** Adding raises the sum of all groups by `amount`. */
  lemma {:induction false} AddToTotal(gs: seq<Group>, k: string, amount: real)
    ensures Total(AddTo(gs, k, amount)) == Total(gs) + amount
  {
    if gs != [] && gs[0].key != k && !LexLess(k, gs[0].key) {
      AddToTotal(gs[1..], k, amount);
    }
  }

  /** `groupby(key)["amount"].sum()`. */
  function GroupBy(es: seq<Entry>, key: Entry -> string): (r: seq<Group>)
    ensures KeysAscending(r)
    ensures Keys(r) == KeysOf(es, key)
    ensures forall k :: Lookup(r, k) == SumWhere(es, key, k)
    ensures Total(r) == Sum(es)
  {
    if es == [] then []
    else
      var rest := GroupBy(es[1..], key);
      var k, a := key(es[0]), es[0].amount;
      AddToAscending(rest, k, a);
      AddToKeys(rest, k, a);
      AddToTotal(rest, k, a);
      assert forall x :: Lookup(AddTo(rest, k, a), x) == Lookup(rest, x) + (if x == k then a else 0.0) by {
        forall x { AddToLookup(rest, k, a, x); }
      }
      AddTo(rest, k, a)
  }

  /** Each group's sum is the sum of its entries. */
  lemma GroupSums(es: seq<Entry>, key: Entry -> string, i: nat)
    requires i < |GroupBy(es, key)|
    ensures GroupBy(es, key)[i].sum == SumWhere(es, key, GroupBy(es, key)[i].key)
  {
    LookupAt(GroupBy(es, key), i);
  }

  /** In ascending groups, looking up the key of group i finds group i. */
  lemma {:induction false} LookupAt(gs: seq<Group>, i: nat)
    requires KeysAscending(gs) && i < |gs|
    ensures Lookup(gs, gs[i].key) == gs[i].sum
  {
    if i > 0 {
      LexLessIrreflexive(gs[i].key);
      assert gs[0].key != gs[i].key;
      LookupAt(gs[1..], i - 1);
    }
  }

  /** The index of the first group with the largest sum (`idxmax`). */
  function TopIndex(gs: seq<Group>): (t: nat)
    requires gs != []
    ensures t < |gs|
    ensures forall i :: 0 <= i < |gs| ==> gs[i].sum <= gs[t].sum
    ensures forall i :: 0 <= i < t ==> gs[i].sum < gs[t].sum
  {
    if |gs| == 1 then 0
    else
      var j := 1 + TopIndex(gs[1..]);
      if gs[0].sum >= gs[j].sum then 0 else j
  }

  /** The group `idxmax` picks has its key's true sum, no group sums to more, and a
      group with an equal sum has a larger key. */
  lemma TopGroup(gs: seq<Group>)
    requires KeysAscending(gs) && gs != []
    ensures var g := gs[TopIndex(gs)];
      && Lookup(gs, g.key) == g.sum
      && forall c :: c in Keys(gs) ==> Lookup(gs, c) <= g.sum && (Lookup(gs, c) == g.sum ==> c == g.key || LexLess(g.key, c))
  {
    var t := TopIndex(gs);
    LookupAt(gs, t);
    forall c | c in Keys(gs)
      ensures Lookup(gs, c) <= gs[t].sum
      ensures Lookup(gs, c) == gs[t].sum ==> c == gs[t].key || LexLess(gs[t].key, c)
    {
      var i :| 0 <= i < |gs| && gs[i].key == c;
      LookupAt(gs, i);
    }
  }

  /** The first key of the groups after the first lies above the first key. */
  lemma TailAbove(gs: seq<Group>)
    requires KeysAscending(gs) && gs != []
    ensures gs[1..] != [] ==> LexLess(gs[0].key, gs[1..][0].key)
  {
  }

  /** Looking up a key above the first key skips the first group. */
  lemma LookupSkip(gs: seq<Group>, k: string)
    requires gs != [] && LexLess(gs[0].key, k)
    ensures Lookup(gs, k) == Lookup(gs[1..], k)
  {
    LexLessIrreflexive(k);
  }
}
