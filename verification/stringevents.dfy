/** StringEvents.Flatten and StringifyEvents of types/events.go: grouping the
    attributes of string events by event type, types in ascending order. */
module StringEvents {
  import opened GoTypes
  import opened ByteStrings
  import opened Events

  /** The attributes of every event of type `ty`, in event order. */
  function Gather(se: seq<StringEvent>, ty: Bytes): seq<Attribute>
    decreases |se|
  {
    if se == [] then []
    else Gather(se[..|se| - 1], ty) + (if se[|se| - 1].eventType == ty then se[|se| - 1].attributes else [])
  }

  function TypesOf(se: seq<StringEvent>): set<Bytes>
  {
    set i | 0 <= i < |se| :: se[i].eventType
  }

  function TypesInOrder(se: seq<StringEvent>): (ts: seq<Bytes>)
    ensures |ts| == |se|
  {
    seq(|se|, i requires 0 <= i < |se| => se[i].eventType)
  }

  /** `res` is the flattening of `se`: one event per type occurring in `se`,
      types strictly ascending, each holding the attributes of all events of
      its type, in order. */
  predicate IsFlattening(se: seq<StringEvent>, res: seq<StringEvent>)
  {
    && StrictlySorted(TypesInOrder(res))
    && TypesOf(res) == TypesOf(se)
    && forall i :: 0 <= i < |res| ==> res[i].attributes == Gather(se, res[i].eventType)
  }

  /** The events that StringifyEvent makes of `events`, in order. */
  function Stringified(events: seq<Event>): seq<StringEvent>
  {
    seq(|events|, i requires 0 <= i < |events| => StringEvent(events[i].eventType, AttributesOf(events[i].attributes)))
  }

  lemma {:induction false} GatherAbsent(se: seq<StringEvent>, ty: Bytes)
    requires ty !in TypesOf(se)
    ensures Gather(se, ty) == []
    decreases |se|
  {
    if se != [] {
      var front := se[..|se| - 1];
      assert TypesOf(front) <= TypesOf(se);
      GatherAbsent(front, ty);
    }
  }

  /** The first loop of Flatten: the attributes of each type, grouped in a map. */
  method GroupByType(se: seq<StringEvent>) returns (flatEvents: map<Bytes, seq<Attribute>>)
    ensures flatEvents.Keys == TypesOf(se)
    ensures forall ty :: ty in flatEvents ==> flatEvents[ty] == Gather(se, ty)
  {
    flatEvents := map[];
    for i := 0 to |se|
      invariant flatEvents.Keys == TypesOf(se[..i])
      invariant forall ty :: ty in flatEvents ==> flatEvents[ty] == Gather(se[..i], ty)
    {
      var e := se[i];
      assert se[..i + 1][..i] == se[..i];
      assert TypesOf(se[..i + 1]) == TypesOf(se[..i]) + {e.eventType} by {
        assert se[..i + 1][i] == e;
      }
      if e.eventType !in flatEvents {
        GatherAbsent(se[..i], e.eventType);
      }
      var prev := if e.eventType in flatEvents then flatEvents[e.eventType] else [];
      flatEvents := flatEvents[e.eventType := prev + e.attributes];
    }
    assert se[..|se|] == se;
  }

  /** The keys of a map, each once, in whatever order ranging over the map
      yields them. */
  method KeysOf<V>(m: map<Bytes, V>) returns (keys: seq<Bytes>)
    ensures forall ty :: ty in keys <==> ty in m
    ensures forall ty :: multiset(keys)[ty] <= 1
  {
    keys := [];
    var rest := m.Keys;
    while rest != {}
      invariant rest <= m.Keys
      invariant forall ty :: ty in keys <==> ty in m && ty !in rest
      invariant forall ty :: multiset(keys)[ty] <= 1
      decreases rest
    {
      var ty :| ty in rest;
      keys := keys + [ty];
      rest := rest - {ty};
    }
  }

  /** The last loop of Flatten: one event per key, in key order, holding the
      attributes grouped under that key. */
  method EventsOfKeys(keys: seq<Bytes>, flatEvents: map<Bytes, seq<Attribute>>) returns (res: seq<StringEvent>)
    requires forall k :: 0 <= k < |keys| ==> keys[k] in flatEvents
    ensures |res| == |keys|
    ensures forall k :: 0 <= k < |keys| ==> res[k] == StringEvent(keys[k], flatEvents[keys[k]])
  {
    res := [];
    for j := 0 to |keys|
      invariant |res| == j
      invariant forall k :: 0 <= k < j ==> res[k] == StringEvent(keys[k], flatEvents[keys[k]])
    {
      res := res + [StringEvent(keys[j], flatEvents[keys[j]])];
    }
  }

  /** Events built from the sorted, repetition-free keys of the grouping are
      the flattening. */
  lemma FlatteningOfGroups(se: seq<StringEvent>, flatEvents: map<Bytes, seq<Attribute>>, keys: seq<Bytes>, res: seq<StringEvent>)
    requires flatEvents.Keys == TypesOf(se)
    requires forall ty :: ty in flatEvents ==> flatEvents[ty] == Gather(se, ty)
    requires StrictlySorted(keys)
    requires forall ty :: ty in keys <==> ty in flatEvents
    requires |res| == |keys|
    requires forall k :: 0 <= k < |keys| ==> res[k] == StringEvent(keys[k], flatEvents[keys[k]])
    ensures IsFlattening(se, res)
  {
    assert TypesInOrder(res) == keys;
    forall ty
      ensures ty in TypesOf(res) <==> ty in TypesOf(se)
    {
      if ty in keys {
        var k :| 0 <= k < |keys| && keys[k] == ty;
        assert res[k].eventType == ty;
      }
    }
  }

  /** StringEvents.Flatten. */
  method Flatten(se: seq<StringEvent>) returns (res: seq<StringEvent>)
    ensures IsFlattening(se, res)
  {
    var flatEvents := GroupByType(se);
    var keys := KeysOf(flatEvents);
    keys := SortStrings(keys);
    SortedDistinctIsStrict(keys);
    assert forall ty :: ty in keys <==> ty in flatEvents by {
      forall ty
        ensures ty in keys <==> ty in flatEvents
      {
        assert ty in keys <==> ty in multiset(keys);
      }
    }
    res := EventsOfKeys(keys, flatEvents);
    FlatteningOfGroups(se, flatEvents, keys, res);
  }

  /** StringifyEvents: stringify each event, then flatten. */
  method StringifyEvents(events: seq<Event>) returns (res: seq<StringEvent>)
    ensures IsFlattening(Stringified(events), res)
  {
    var out: seq<StringEvent> := [];
    for i := 0 to |events|
      invariant out == Stringified(events[..i])
    {
      var se := StringifyEvent(events[i]);
      out := out + [se];
    }
    assert events[..|events|] == events;
    res := Flatten(out);
  }

  /** The flattening of a list is unique, so every flattening of the
      stringified events is what Flatten gives for them. */
  lemma FlatteningUnique(se: seq<StringEvent>, r1: seq<StringEvent>, r2: seq<StringEvent>)
    requires IsFlattening(se, r1) && IsFlattening(se, r2)
    ensures r1 == r2
  {
    var t1, t2 := TypesInOrder(r1), TypesInOrder(r2);
    forall x
      ensures x in t1 <==> x in t2
    {
      if x in t1 {
        var i :| 0 <= i < |t1| && t1[i] == x;
        assert x in TypesOf(r1);
        var j :| 0 <= j < |r2| && r2[j].eventType == x;
        assert t2[j] == x;
      }
      if x in t2 {
        var j :| 0 <= j < |t2| && t2[j] == x;
        assert x in TypesOf(r2);
        var i :| 0 <= i < |r1| && r1[i].eventType == x;
        assert t1[i] == x;
      }
    }
    StrictlySortedUnique(t1, t2);
    assert forall i :: 0 <= i < |r1| ==> r1[i] == StringEvent(t1[i], Gather(se, t1[i]));
    assert forall i :: 0 <= i < |r2| ==> r2[i] == StringEvent(t2[i], Gather(se, t2[i]));
  }

  // ---------------------------------------------------------------------------
  // Flattening keeps every attribute
  // ---------------------------------------------------------------------------

  function TotalAttributes(se: seq<StringEvent>): nat
    decreases |se|
  {
    if se == [] then 0 else TotalAttributes(se[..|se| - 1]) + |se[|se| - 1].attributes|
  }

  /** The number of attributes of `se` whose event type is among `ts`, type by type. */
  function GatheredCount(se: seq<StringEvent>, ts: seq<Bytes>): nat
    decreases |ts|
  {
    if ts == [] then 0 else GatheredCount(se, ts[..|ts| - 1]) + |Gather(se, ts[|ts| - 1])|
  }

  predicate Distinct(ts: seq<Bytes>)
  {
    forall i, j :: 0 <= i < j < |ts| ==> ts[i] != ts[j]
  }

  lemma {:induction false} GatheredCountOfNone(ts: seq<Bytes>)
    ensures GatheredCount([], ts) == 0
    decreases |ts|
  {
    if ts != [] {
      GatheredCountOfNone(ts[..|ts| - 1]);
    }
  }

  lemma {:induction false} GatheredCountSnoc(p: seq<StringEvent>, e: StringEvent, ts: seq<Bytes>)
    requires Distinct(ts)
    ensures GatheredCount(p + [e], ts) == GatheredCount(p, ts) + (if e.eventType in ts then |e.attributes| else 0)
    decreases |ts|
  {
    if ts != [] {
      var q, t := ts[..|ts| - 1], ts[|ts| - 1];
      GatheredCountSnoc(p, e, q);
      assert (p + [e])[..|p|] == p;
      assert e.eventType in ts <==> e.eventType in q || e.eventType == t by {
        assert ts == q + [t];
      }
      assert t !in q;
    }
  }

  lemma {:induction false} GatheredCountTotal(se: seq<StringEvent>, ts: seq<Bytes>)
    requires Distinct(ts)
    requires forall i :: 0 <= i < |se| ==> se[i].eventType in ts
    ensures GatheredCount(se, ts) == TotalAttributes(se)
    decreases |se|
  {
    if se == [] {
      GatheredCountOfNone(ts);
    } else {
      var p, e := se[..|se| - 1], se[|se| - 1];
      GatheredCountTotal(p, ts);
      assert se == p + [e];
      GatheredCountSnoc(p, e, ts);
    }
  }

  lemma {:induction false} TotalOfGathered(se: seq<StringEvent>, res: seq<StringEvent>)
    requires forall i :: 0 <= i < |res| ==> res[i].attributes == Gather(se, res[i].eventType)
    ensures TotalAttributes(res) == GatheredCount(se, TypesInOrder(res))
    decreases |res|
  {
    if res != [] {
      var front := res[..|res| - 1];
      TotalOfGathered(se, front);
      assert TypesInOrder(res)[..|res| - 1] == TypesInOrder(front);
    }
  }

  /** Flattening neither drops nor duplicates attributes. */
  lemma FlatteningKeepsAttributeCount(se: seq<StringEvent>, res: seq<StringEvent>)
    requires IsFlattening(se, res)
    ensures TotalAttributes(res) == TotalAttributes(se)
  {
    var ts := TypesInOrder(res);
    forall i, j | 0 <= i < j < |ts|
      ensures ts[i] != ts[j]
    {
      LessIrreflexive(ts[i]);
    }
    forall i | 0 <= i < |se|
      ensures se[i].eventType in ts
    {
      assert se[i].eventType in TypesOf(res);
      var k :| 0 <= k < |res| && res[k].eventType == se[i].eventType;
      assert ts[k] == se[i].eventType;
    }
    TotalOfGathered(se, res);
    GatheredCountTotal(se, ts);
  }
}
