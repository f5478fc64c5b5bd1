/** The two-level grouping of `updateChart` (script.js): gross value summed per
    origin state and, inside each state, per activity, with both levels keyed
    in first-occurrence order. `GroupSum`, `StatesOf` and `ActivitiesOf` are the
    reference definitions the grouped structure is proved against. */
module Grouping {
  import opened Wrappers
  import opened Seqs
  import opened OrderedMaps
  import opened TradeParser

  /** `groupedData`: state -> (activity -> summed gross value). */
  type Groups = OrderedMap<OrderedMap<real>>

  /** The origin state of every record, in order. */
  function StatesOf(data: seq<Record>): (r: seq<string>)
    ensures |r| == |data|
    ensures forall k :: 0 <= k < |data| ==> r[k] == data[k].state
  {
    if |data| == 0 then [] else StatesOf(data[..|data| - 1]) + [data[|data| - 1].state]
  }

  /** The activity of every record whose state is `s`, in order. */
  function ActivitiesOf(data: seq<Record>, s: string): seq<string> {
    if |data| == 0 then []
    else
      var rest := ActivitiesOf(data[..|data| - 1], s);
      if data[|data| - 1].state == s then rest + [data[|data| - 1].activity] else rest
  }

  /** Some record has state `s` and activity `a`. */
  predicate HasPair(data: seq<Record>, s: string, a: string) {
    |data| > 0 &&
    (HasPair(data[..|data| - 1], s, a) || (data[|data| - 1].state == s && data[|data| - 1].activity == a))
  }

  /** The gross value summed over exactly the records with state `s` and activity `a`. */
  function GroupSum(data: seq<Record>, s: string, a: string): real {
    if |data| == 0 then 0.0
    else
      var last := data[|data| - 1];
      GroupSum(data[..|data| - 1], s, a) + (if last.state == s && last.activity == a then last.total else 0.0)
  }

  /** One step of `data.forEach`: create the state's object and the activity's
      counter when missing, then add the record's gross value. */
  function AddRecord(g: Groups, rec: Record): Groups {
    var inner := Get(g, rec.state).GetOr(Empty());
    var current := Get(inner, rec.activity).GetOr(0.0);
    Put(g, rec.state, Put(inner, rec.activity, current + rec.total))
  }

  /** `groupedData` after the whole `forEach` over `data`. */
  function Group(data: seq<Record>): Groups {
    if |data| == 0 then Empty() else AddRecord(Group(data[..|data| - 1]), data[|data| - 1])
  }

  /** `groupedData[s][a]`, or `None` when either level has no such key. */
  function Lookup(g: Groups, s: string, a: string): Option<real> {
    Get(Get(g, s).GetOr(Empty()), a)
  }

  /** The activity keys recorded under state `s` (none when `s` is absent). */
  function ActivityKeys(g: Groups, s: string): seq<string> {
    Get(g, s).GetOr(Empty()).keys
  }

  /** One `forEach` step on the state keys: a new state goes to the end. */
  lemma AddRecordKeys(g: Groups, rec: Record)
    ensures AddRecord(g, rec).keys == if rec.state in g.keys then g.keys else g.keys + [rec.state]
  {
  }

  /** One `forEach` step on the activity keys: only the record's state changes,
      and there a new activity goes to the end. */
  lemma AddRecordActivityKeys(g: Groups, rec: Record, s: string)
    ensures ActivityKeys(AddRecord(g, rec), s) ==
      if s != rec.state then ActivityKeys(g, s)
      else if rec.activity in ActivityKeys(g, s) then ActivityKeys(g, s)
      else ActivityKeys(g, s) + [rec.activity]
  {
  }

  /** One `forEach` step on counter presence: only the record's own pair can
      gain a counter. */
  lemma AddRecordHas(g: Groups, rec: Record, s: string, a: string)
    ensures Lookup(AddRecord(g, rec), s, a).Some? <==>
      Lookup(g, s, a).Some? || (s == rec.state && a == rec.activity)
  {
  }

  /** One `forEach` step on counter values (an absent counter reading as 0):
      only the record's own pair changes, and it grows by the record's gross value. */
  lemma AddRecordValue(g: Groups, rec: Record, s: string, a: string)
    ensures Lookup(AddRecord(g, rec), s, a).GetOr(0.0) ==
      Lookup(g, s, a).GetOr(0.0) + (if s == rec.state && a == rec.activity then rec.total else 0.0)
  {
  }

  /** The state keys of the grouped structure are the states of the data in
      order of first occurrence. */
  lemma {:induction false} GroupKeys(data: seq<Record>)
    ensures Group(data).keys == Dedup(StatesOf(data))
  {
    if |data| > 0 {
      var p := data[..|data| - 1];
      var rec := data[|data| - 1];
      GroupKeys(p);
      AddRecordKeys(Group(p), rec);
      assert StatesOf(data) == StatesOf(p) + [rec.state];
      InDedup(StatesOf(p), rec.state);
    }
  }

  /** Under every state, the activity keys are that state's activities in order
      of first occurrence. */
  lemma {:induction false} GroupActivityKeys(data: seq<Record>, s: string)
    ensures ActivityKeys(Group(data), s) == Dedup(ActivitiesOf(data, s))
  {
    if |data| > 0 {
      var p := data[..|data| - 1];
      var rec := data[|data| - 1];
      GroupActivityKeys(p, s);
      AddRecordActivityKeys(Group(p), rec, s);
      if s == rec.state {
        assert ActivitiesOf(data, s) == ActivitiesOf(p, s) + [rec.activity];
        InDedup(ActivitiesOf(p, s), rec.activity);
      } else {
        assert ActivitiesOf(data, s) == ActivitiesOf(p, s);
      }
    }
  }

  /** `groupedData[s][a]` exists exactly for the pairs some record has. */
  lemma {:induction false} GroupHas(data: seq<Record>, s: string, a: string)
    ensures Lookup(Group(data), s, a).Some? <==> HasPair(data, s, a)
  {
    if |data| > 0 {
      var p := data[..|data| - 1];
      GroupHas(p, s, a);
      AddRecordHas(Group(p), data[|data| - 1], s, a);
    }
  }

  /** `groupedData[s][a] || 0` is the sum over exactly the records with state
      `s` and activity `a`. */
  lemma {:induction false} GroupValue(data: seq<Record>, s: string, a: string)
    ensures Lookup(Group(data), s, a).GetOr(0.0) == GroupSum(data, s, a)
  {
    if |data| > 0 {
      var p := data[..|data| - 1];
      GroupValue(p, s, a);
      AddRecordValue(Group(p), data[|data| - 1], s, a);
    }
  }

  /** `groupedData[s][a]` exists exactly for the pairs some record has, and then
      holds the sum over exactly that pair's records. */
  lemma GroupLookup(data: seq<Record>, s: string, a: string)
    ensures Lookup(Group(data), s, a) ==
      (if HasPair(data, s, a) then Some(GroupSum(data, s, a)) else None)
  {
    GroupHas(data, s, a);
    GroupValue(data, s, a);
  }

  /** Both levels of the grouped structure are well formed: every key list
      names each assigned key exactly once. */
  predicate GroupsValid(g: Groups) {
    Valid(g) && forall s :: s in g.table ==> Valid(g.table[s])
  }

  /** One `forEach` step keeps both levels well formed. */
  lemma AddRecordValid(g: Groups, rec: Record)
    requires GroupsValid(g)
    ensures GroupsValid(AddRecord(g, rec))
  {
    var inner := InnerValid(g, rec.state);
    var total := Get(inner, rec.activity).GetOr(0.0) + rec.total;
    var updated := Put(inner, rec.activity, total);
    PutValid(inner, rec.activity, total);
    PutInnerValid(g, rec.state, updated);
    assert AddRecord(g, rec) == Put(g, rec.state, updated);
  }

  /** The inner object a state's records go to is well formed, whether it is
      already stored or freshly created. */
  lemma InnerValid(g: Groups, state: string) returns (inner: OrderedMap<real>)
    requires GroupsValid(g)
    ensures inner == Get(g, state).GetOr(Empty())
    ensures Valid(inner)
  {
    inner := Get(g, state).GetOr(Empty());
    if state !in g.table {
      EmptyValid<real>();
    }
  }

  /** Storing a well-formed inner object under a state keeps both levels well formed. */
  lemma PutInnerValid(g: Groups, state: string, inner: OrderedMap<real>)
    requires GroupsValid(g) && Valid(inner)
    ensures GroupsValid(Put(g, state, inner))
  {
    PutValid(g, state, inner);
    var g' := Put(g, state, inner);
    forall s | s in g'.table
      ensures Valid(g'.table[s])
    {
      if s != state {
        assert g'.table[s] == g.table[s];
      }
    }
  }

  /** `groupedData` is well formed at every step of the `forEach`. */
  lemma {:induction false} GroupValid(data: seq<Record>)
    ensures GroupsValid(Group(data))
  {
    if |data| == 0 {
      EmptyValid<OrderedMap<real>>();
    } else {
      GroupValid(data[..|data| - 1]);
      AddRecordValid(Group(data[..|data| - 1]), data[|data| - 1]);
    }
  }

  lemma InDedup(xs: seq<string>, x: string)
    ensures x in Dedup(xs) <==> x in xs
  {
    assert x in Dedup(xs) <==> x in Elements(Dedup(xs));
  }

  /** `HasPair` holds exactly when some position of `data` carries the pair. */
  lemma {:induction false} HasPairIndex(data: seq<Record>, s: string, a: string)
    ensures HasPair(data, s, a) <==>
      exists k :: 0 <= k < |data| && data[k].state == s && data[k].activity == a
  {
    if |data| > 0 {
      var p := data[..|data| - 1];
      HasPairIndex(p, s, a);
      if HasPair(p, s, a) {
        var k :| 0 <= k < |p| && p[k].state == s && p[k].activity == a;
        assert data[k] == p[k];
      }
      if exists k :: 0 <= k < |data| && data[k].state == s && data[k].activity == a {
        var k :| 0 <= k < |data| && data[k].state == s && data[k].activity == a;
        if k < |p| {
          assert p[k] == data[k];
        }
      }
    }
  }

  /** A pair no record has sums to zero. */
  lemma {:induction false} AbsentSumsToZero(data: seq<Record>, s: string, a: string)
    requires !HasPair(data, s, a)
    ensures GroupSum(data, s, a) == 0.0
  {
    if |data| > 0 {
        AbsentSumsToZero(data[..|data| - 1], s, a);
    }
  }

  /** Group sums add up over concatenated data. */
  lemma {:induction false} GroupSumAppend(a: seq<Record>, b: seq<Record>, s: string, act: string)
    ensures GroupSum(a + b, s, act) == GroupSum(a, s, act) + GroupSum(b, s, act)
    decreases |b|
  {
    if |b| == 0 {
      assert a + b == a;
    } else {
      var ab := a + b;
      assert ab[..|ab| - 1] == a + b[..|b| - 1];
      assert ab[|ab| - 1] == b[|b| - 1];
      GroupSumAppend(a, b[..|b| - 1], s, act);
    }
  }

  /** Loading the same data twice doubles every group sum: nothing is de-duplicated. */
  lemma GroupSumDoubled(data: seq<Record>, s: string, a: string)
    ensures GroupSum(data + data, s, a) == 2.0 * GroupSum(data, s, a)
  {
    GroupSumAppend(data, data, s, a);
  }

  /** Group sums do not depend on the order of the records. */
  lemma {:induction false} GroupSumPermutation(d1: seq<Record>, d2: seq<Record>, s: string, a: string)
    requires multiset(d1) == multiset(d2)
    ensures GroupSum(d1, s, a) == GroupSum(d2, s, a)
    decreases |d1|
  {
    if |d1| == 0 {
      assert |d2| == |multiset(d2)| == 0;
    } else {
      var p := d1[..|d1| - 1];
      var x := d1[|d1| - 1];
      assert d1 == p + [x];
      assert x in multiset(d2);
      var k :| 0 <= k < |d2| && d2[k] == x;
      var rest := d2[..k] + d2[k + 1..];
      RemoveAt(d2, k);
      assert multiset(p) == multiset(d1) - multiset{x};
      GroupSumPermutation(p, rest, s, a);
      GroupSumRemove(d2, k, s, a);
      GroupSumAppend(p, [x], s, a);
    }
  }

  /** Taking out the element at `k` takes one copy of it out of the multiset. */
  lemma RemoveAt(xs: seq<Record>, k: int)
    requires 0 <= k < |xs|
    ensures multiset(xs[..k] + xs[k + 1..]) == multiset(xs) - multiset{xs[k]}
  {
    assert xs == xs[..k] + [xs[k]] + xs[k + 1..];
  }

  /** The group sum of `d` is that of `d` without its `k`th record plus that
      record's own share. */
  lemma GroupSumRemove(d: seq<Record>, k: int, s: string, a: string)
    requires 0 <= k < |d|
    ensures GroupSum(d, s, a) == GroupSum(d[..k] + d[k + 1..], s, a) + GroupSum([d[k]], s, a)
  {
    assert d == d[..k] + [d[k]] + d[k + 1..];
    GroupSumAppend(d[..k] + [d[k]], d[k + 1..], s, a);
    GroupSumAppend(d[..k], [d[k]], s, a);
    GroupSumAppend(d[..k], d[k + 1..], s, a);
  }

  /** With positive gross values, a pair's sum is positive exactly when some
      record has that pair, and zero otherwise. */
  lemma {:induction false} GroupSumSign(data: seq<Record>, s: string, a: string)
    requires AllPositive(data)
    ensures GroupSum(data, s, a) >= 0.0
    ensures GroupSum(data, s, a) > 0.0 <==> HasPair(data, s, a)
  {
    if |data| > 0 {
        GroupSumSign(data[..|data| - 1], s, a);
    }
  }

  /** An activity is listed under a state exactly when some record has that pair. */
  lemma {:induction false} ActivitiesOfPair(data: seq<Record>, s: string, a: string)
    ensures a in ActivitiesOf(data, s) <==> HasPair(data, s, a)
  {
    if |data| > 0 {
      ActivitiesOfPair(data[..|data| - 1], s, a);
    }
  }

  /** The states of concatenated data are the states of each part in turn. */
  lemma StatesOfAppend(a: seq<Record>, b: seq<Record>)
    ensures StatesOf(a + b) == StatesOf(a) + StatesOf(b)
  {
  }

  /** The activities under `s` of concatenated data are those of each part in turn. */
  lemma {:induction false} ActivitiesOfAppend(a: seq<Record>, b: seq<Record>, s: string)
    ensures ActivitiesOf(a + b, s) == ActivitiesOf(a, s) + ActivitiesOf(b, s)
    decreases |b|
  {
    if |b| == 0 {
      assert a + b == a;
    } else {
      var ab := a + b;
      assert ab[..|ab| - 1] == a + b[..|b| - 1];
      assert ab[|ab| - 1] == b[|b| - 1];
      ActivitiesOfAppend(a, b[..|b| - 1], s);
    }
  }

  /** Every state of `d1` is a state of any rearrangement `d2` of it. */
  lemma StatesOfIncluded(d1: seq<Record>, d2: seq<Record>, x: string)
    requires multiset(d1) == multiset(d2)
    requires x in StatesOf(d1)
    ensures x in StatesOf(d2)
  {
    var k :| 0 <= k < |d1| && StatesOf(d1)[k] == x;
    assert d1[k] in multiset(d2);
    var k2 :| 0 <= k2 < |d2| && d2[k2] == d1[k];
    assert StatesOf(d2)[k2] == x;
  }

  /** Rearranging the records does not change the set of states. */
  lemma StatesOfPermutation(d1: seq<Record>, d2: seq<Record>)
    requires multiset(d1) == multiset(d2)
    ensures Elements(StatesOf(d1)) == Elements(StatesOf(d2))
  {
    forall x | x in StatesOf(d1)
      ensures x in StatesOf(d2)
    {
      StatesOfIncluded(d1, d2, x);
    }
    forall x | x in StatesOf(d2)
      ensures x in StatesOf(d1)
    {
      StatesOfIncluded(d2, d1, x);
    }
  }
}
