/** The ordered set of (expiration, timer address) pairs that the timer queue keeps.
    A `std::set` is modelled by the strictly ascending sequence of its elements. */
module TimerSet {

  /** A `std::pair<Timestamp, Timer*>`: microseconds since the epoch and an address. */
  datatype Entry = Entry(when: int, timer: int)

  predicate Less(e: Entry, f: Entry) {
    e.when < f.when || (e.when == f.when && e.timer < f.timer)
  }

  ghost predicate Sorted(ts: seq<Entry>) {
    forall i, j :: 0 <= i < j < |ts| ==> Less(ts[i], ts[j])
  }

  /** `lower_bound`: the position of the first element not below `e`. */
  function LowerBound(ts: seq<Entry>, e: Entry): (k: nat)
    ensures k <= |ts|
    ensures forall i :: 0 <= i < k ==> Less(ts[i], e)
    ensures k < |ts| ==> !Less(ts[k], e)
  {
    if ts == [] || !Less(ts[0], e) then 0 else 1 + LowerBound(ts[1..], e)
  }

  /** `insert` of an element that is not there yet. */
  function Insert(ts: seq<Entry>, e: Entry): seq<Entry> {
    var k := LowerBound(ts, e);
    ts[..k] + [e] + ts[k..]
  }

  /** `erase` of an element by value; nothing happens when it is absent. */
  function Erase(ts: seq<Entry>, e: Entry): seq<Entry> {
    var k := LowerBound(ts, e);
    if k < |ts| && ts[k] == e then ts[..k] + ts[k + 1..] else ts
  }

  /** In a sorted sequence, everything from `lower_bound` on is not below `e`, and an element is
      present exactly when it sits at its lower bound. */
  lemma LowerBoundSplits(ts: seq<Entry>, e: Entry)
    requires Sorted(ts)
    ensures forall i :: LowerBound(ts, e) <= i < |ts| ==> !Less(ts[i], e)
    ensures e in ts <==> LowerBound(ts, e) < |ts| && ts[LowerBound(ts, e)] == e
  {
    var k := LowerBound(ts, e);
    forall i | k <= i < |ts|
      ensures !Less(ts[i], e)
    {
      assert i == k || Less(ts[k], ts[i]);
    }
    if e in ts {
      var i :| 0 <= i < |ts| && ts[i] == e;
      assert !Less(e, e);
    }
  }

  lemma InsertMembers(ts: seq<Entry>, e: Entry)
    ensures |Insert(ts, e)| == |ts| + 1
    ensures forall x :: x in Insert(ts, e) <==> x == e || x in ts
  {
    var k := LowerBound(ts, e);
    assert ts == ts[..k] + ts[k..];
  }

  lemma InsertKeepsOrder(ts: seq<Entry>, e: Entry)
    requires Sorted(ts) && e !in ts
    ensures Sorted(Insert(ts, e))
    ensures Insert(ts, e)[0] == if ts == [] || Less(e, ts[0]) then e else ts[0]
  {
    LowerBoundSplits(ts, e);
    var k := LowerBound(ts, e);
    var r := Insert(ts, e);
    forall i, j | 0 <= i < j < |r|
      ensures Less(r[i], r[j])
    {
      var x := if j < k then ts[j] else if j == k then e else ts[j - 1];
      assert r[j] == x && (j != k ==> x in ts);
      assert r[i] == if i < k then ts[i] else if i == k then e else ts[i - 1];
    }
  }

  lemma EraseMembers(ts: seq<Entry>, e: Entry)
    requires Sorted(ts)
    ensures forall x :: x in Erase(ts, e) <==> x != e && x in ts
    ensures |Erase(ts, e)| == if e in ts then |ts| - 1 else |ts|
  {
    LowerBoundSplits(ts, e);
    var k := LowerBound(ts, e);
    if e in ts {
      assert ts == ts[..k] + [e] + ts[k + 1..];
      assert forall i :: 0 <= i < k ==> Less(ts[i], ts[k]);
      assert forall i :: k < i < |ts| ==> Less(ts[k], ts[i]);
      assert e !in ts[..k] && e !in ts[k + 1..];
    }
  }

  lemma EraseKeepsOrder(ts: seq<Entry>, e: Entry)
    requires Sorted(ts)
    ensures Sorted(Erase(ts, e))
    ensures Erase(ts, e) != [] ==> ts != [] && ts[0].when <= Erase(ts, e)[0].when
  {
    var k := LowerBound(ts, e);
    var r := Erase(ts, e);
    if r != ts {
      forall i, j | 0 <= i < j < |r|
        ensures Less(r[i], r[j])
      {
        assert r[i] == ts[if i < k then i else i + 1] && r[j] == ts[if j < k then j else j + 1];
      }
      if r != [] {
        assert r[0] == ts[if 0 < k then 0 else 1];
      }
    }
  }
}
