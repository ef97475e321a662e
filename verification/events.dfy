/** The event values of types/events.go, the conversions between their
    byte-keyed and string-keyed forms, index marking, and the EventManager
    that collects the events a transaction emits. */
module Events {
  import opened GoTypes

  /** An abci.EventAttribute. */
  datatype EventAttribute = EventAttribute(key: Bytes, value: Bytes, index: bool)

  /** An Event (the same record as an abci.Event). */
  datatype Event = Event(eventType: Bytes, attributes: seq<EventAttribute>)

  /** An Attribute: a key/value pair of strings. */
  datatype Attribute = Attribute(key: Bytes, value: Bytes)

  /** A StringEvent: an event whose attributes are string pairs. */
  datatype StringEvent = StringEvent(eventType: Bytes, attributes: seq<Attribute>)

  // ---------------------------------------------------------------------------
  // Attribute conversions
  // ---------------------------------------------------------------------------

  /** Attribute.ToKVPair: the key and value as bytes, not marked for indexing. */
  function ToKVPair(a: Attribute): (r: EventAttribute)
    ensures r.key == a.key && r.value == a.value
    ensures !r.index
  {
    EventAttribute(a.key, a.value, false)
  }

  /** ToKVPair of each attribute, in order. */
  function KVPairs(attrs: seq<Attribute>): seq<EventAttribute>
  {
    seq(|attrs|, i requires 0 <= i < |attrs| => ToKVPair(attrs[i]))
  }

  /** The string pair of each byte attribute, in order (as StringifyEvent builds them). */
  function AttributesOf(ps: seq<EventAttribute>): seq<Attribute>
  {
    seq(|ps|, i requires 0 <= i < |ps| => Attribute(ps[i].key, ps[i].value))
  }

  /** The attributes with their index flag cleared. */
  function Unindexed(ps: seq<EventAttribute>): seq<EventAttribute>
  {
    seq(|ps|, i requires 0 <= i < |ps| => ps[i].(index := false))
  }

  /** Stringifying the pairs that ToKVPair made gives back the attributes. */
  lemma KVPairsRoundTrip(attrs: seq<Attribute>)
    ensures AttributesOf(KVPairs(attrs)) == attrs
  {
  }

  /** Converting byte attributes to string pairs and back loses only the index flag. */
  lemma AttributesOfRoundTrip(ps: seq<EventAttribute>)
    ensures KVPairs(AttributesOf(ps)) == Unindexed(ps)
  {
  }

  /** NewEvent: an event of type `ty` with one attribute per argument, in order. */
  method NewEvent(ty: Bytes, attrs: seq<Attribute>) returns (e: Event)
    ensures e.eventType == ty
    ensures e.attributes == KVPairs(attrs)
  {
    e := Event(ty, []);
    for i := 0 to |attrs|
      invariant e == Event(ty, KVPairs(attrs[..i]))
    {
      assert KVPairs(attrs[..i + 1]) == KVPairs(attrs[..i]) + [ToKVPair(attrs[i])];
      e := e.(attributes := e.attributes + [ToKVPair(attrs[i])]);
    }
    assert attrs[..|attrs|] == attrs;
  }

  /** Event.AppendAttributes: the same event with the pairs of `attrs` after its
      own attributes. */
  method AppendAttributes(e: Event, attrs: seq<Attribute>) returns (r: Event)
    ensures r.eventType == e.eventType
    ensures r.attributes == e.attributes + KVPairs(attrs)
  {
    r := e;
    for i := 0 to |attrs|
      invariant r == Event(e.eventType, e.attributes + KVPairs(attrs[..i]))
    {
      assert KVPairs(attrs[..i + 1]) == KVPairs(attrs[..i]) + [ToKVPair(attrs[i])];
      r := r.(attributes := r.attributes + [ToKVPair(attrs[i])]);
    }
    assert attrs[..|attrs|] == attrs;
  }

  /** StringifyEvent: the same type and one string pair per attribute, in order. */
  method StringifyEvent(e: Event) returns (r: StringEvent)
    ensures r.eventType == e.eventType
    ensures r.attributes == AttributesOf(e.attributes)
  {
    r := StringEvent(e.eventType, []);
    for i := 0 to |e.attributes|
      invariant r == StringEvent(e.eventType, AttributesOf(e.attributes[..i]))
    {
      var attr := e.attributes[i];
      assert AttributesOf(e.attributes[..i + 1]) == AttributesOf(e.attributes[..i]) + [Attribute(attr.key, attr.value)];
      r := r.(attributes := r.attributes + [Attribute(attr.key, attr.value)]);
    }
    assert e.attributes[..|e.attributes|] == e.attributes;
  }

  // ---------------------------------------------------------------------------
  // Event lists
  // ---------------------------------------------------------------------------

  /** Events.AppendEvent. */
  function AppendEvent(es: seq<Event>, event: Event): (r: seq<Event>)
    ensures |r| == |es| + 1
    ensures r[..|es|] == es && r[|es|] == event
  {
    es + [event]
  }

  /** Events.AppendEvents. */
  function AppendEvents(es: seq<Event>, more: seq<Event>): (r: seq<Event>)
    ensures |r| == |es| + |more|
    ensures r[..|es|] == es && r[|es|..] == more
  {
    es + more
  }

  /** Events.ToABCIEvents: a fresh list holding, position by position, an
      event with the same type and attributes. */
  method ToABCIEvents(es: seq<Event>) returns (r: seq<Event>)
    ensures |r| == |es|
    ensures forall i :: 0 <= i < |es| ==> r[i].eventType == es[i].eventType && r[i].attributes == es[i].attributes
  {
    var res := new Event[|es|];
    for i := 0 to |es|
      invariant forall k :: 0 <= k < i ==> res[k] == es[k]
    {
      res[i] := Event(es[i].eventType, es[i].attributes);
    }
    r := res[..];
  }

  // ---------------------------------------------------------------------------
  // Index marking
  // ---------------------------------------------------------------------------

  /** The key an attribute is looked up under in the index set: "<type>.<key>". */
  function IndexKey(eventType: Bytes, key: Bytes): (k: Bytes)
    ensures |k| == |eventType| + 1 + |key|
    ensures k[..|eventType|] == eventType && k[|eventType|] == Dot && k[|eventType| + 1..] == key
  {
    eventType + [Dot] + key
  }

  /** For event types without a dot, the index key names one type and one
      attribute key: the first dot separates them. */
  lemma IndexKeyUnambiguous(t1: Bytes, k1: Bytes, t2: Bytes, k2: Bytes)
    requires Dot !in t1 && Dot !in t2
    requires IndexKey(t1, k1) == IndexKey(t2, k2)
    ensures t1 == t2 && k1 == k2
  {
    var k := IndexKey(t1, k1);
    if |t1| <= |t2| {
      FirstDotEnds(t1, t2, k);
    } else {
      FirstDotEnds(t2, t1, k);
    }
  }

  /** A dot-free prefix of `k` followed by a dot is not shorter than any other
      dot-free prefix of `k`. */
  lemma FirstDotEnds(short: Bytes, long: Bytes, k: Bytes)
    requires |short| <= |long| < |k|
    requires k[..|short|] == short && k[|short|] == Dot
    requires k[..|long|] == long && Dot !in long
    ensures |short| == |long|
  {
  }

  /** `u` is attribute `a` of an event of type `eventType`, with its index flag
      set exactly when the index set is empty or names it. */
  predicate MarkedAttribute(u: EventAttribute, eventType: Bytes, a: EventAttribute, indexSet: set<Bytes>)
  {
    && u.key == a.key
    && u.value == a.value
    && (u.index <==> indexSet == {} || IndexKey(eventType, a.key) in indexSet)
  }

  predicate MarkedEvent(u: Event, e: Event, indexSet: set<Bytes>)
  {
    && u.eventType == e.eventType
    && |u.attributes| == |e.attributes|
    && forall j :: 0 <= j < |e.attributes| ==> MarkedAttribute(u.attributes[j], e.eventType, e.attributes[j], indexSet)
  }

  /** MarkEventsToIndex: the same events, types, keys and values in the same
      order, every attribute's index flag decided by the index set. */
  method MarkEventsToIndex(events: seq<Event>, indexSet: set<Bytes>) returns (updated: seq<Event>)
    ensures |updated| == |events|
    ensures forall i :: 0 <= i < |events| ==> MarkedEvent(updated[i], events[i], indexSet)
  {
    var indexAll := |indexSet| == 0;
    var out := new Event[|events|];
    for i := 0 to |events|
      modifies out
      invariant forall k :: 0 <= k < i ==> MarkedEvent(out[k], events[k], indexSet)
    {
      var e := events[i];
      var attrs := new EventAttribute[|e.attributes|];
      for j := 0 to |e.attributes|
        modifies attrs
        invariant forall l :: 0 <= l < j ==> MarkedAttribute(attrs[l], e.eventType, e.attributes[l], indexSet)
      {
        var attr := e.attributes[j];
        var index := IndexKey(e.eventType, attr.key) in indexSet;
        attrs[j] := EventAttribute(attr.key, attr.value, index || indexAll);
      }
      out[i] := Event(e.eventType, attrs[..]);
    }
    updated := out[..];
  }

  // ---------------------------------------------------------------------------
  // Typed events
  // ---------------------------------------------------------------------------

  /** Converting every typed event in order: all the events, or the error of
      the first conversion that fails. */
  function ConvertAll<M, E>(tevs: seq<M>, convert: M -> Result<Event, E>): (r: Result<seq<Event>, E>)
    ensures r.Ok? <==> forall i :: 0 <= i < |tevs| ==> convert(tevs[i]).Ok?
    ensures r.Ok? ==> |r.value| == |tevs| && forall i :: 0 <= i < |tevs| ==> r.value[i] == convert(tevs[i]).value
    ensures r.Err? ==> exists i :: 0 <= i < |tevs| && convert(tevs[i]) == Err(r.error)
                                   && forall j :: 0 <= j < i ==> convert(tevs[j]).Ok?
  {
    if tevs == [] then Ok([])
    else match convert(tevs[0])
      case Err(x) => Err(x)
      case Ok(ev) =>
        match ConvertAll(tevs[1..], convert)
        case Err(x) => Err(x)
        case Ok(evs) => Ok([ev] + evs)
  }

  /** An EventManager: the events emitted so far, in emission order. */
  class EventManager {
    var events: seq<Event>

    /** NewEventManager. */
    constructor ()
      ensures events == []
    {
      events := [];
    }

    method Events() returns (es: seq<Event>)
      ensures es == events
    {
      es := events;
    }

    /** EmitEvent: `event` goes after every event emitted before. */
    method EmitEvent(event: Event)
      modifies this
      ensures events == AppendEvent(old(events), event)
    {
      events := AppendEvent(events, event);
    }

    /** EmitEvents: `more` goes, in order, after every event emitted before. */
    method EmitEvents(more: seq<Event>)
      modifies this
      ensures events == AppendEvents(old(events), more)
    {
      events := AppendEvents(events, more);
    }

    /** ABCIEvents. */
    method ABCIEvents() returns (r: seq<Event>)
      ensures |r| == |events|
      ensures forall i :: 0 <= i < |events| ==> r[i].eventType == events[i].eventType && r[i].attributes == events[i].attributes
    {
      r := ToABCIEvents(events);
    }

    /** EmitTypedEvent, with TypedEventToEvent given as `convert`. */
    method EmitTypedEvent<M, E>(tev: M, convert: M -> Result<Event, E>) returns (err: Option<E>)
      modifies this
      ensures convert(tev).Err? ==> err == Some(convert(tev).error) && events == old(events)
      ensures convert(tev).Ok? ==> err == None && events == old(events) + [convert(tev).value]
    {
      var res := convert(tev);
      if res.Err? {
        return Some(res.error);
      }
      EmitEvent(res.value);
      return None;
    }

    /** EmitTypedEvents, with TypedEventToEvent given as `convert`: all or
        nothing. On the first failing conversion nothing is emitted and its
        error is returned; otherwise one event per typed event, in order. */
    method EmitTypedEvents<M, E>(tevs: seq<M>, convert: M -> Result<Event, E>) returns (err: Option<E>)
      modifies this
      ensures ConvertAll(tevs, convert).Err? ==> err == Some(ConvertAll(tevs, convert).error) && events == old(events)
      ensures ConvertAll(tevs, convert).Ok? ==> err == None && events == old(events) + ConvertAll(tevs, convert).value
    {
      var buf := new Event[|tevs|];
      for i := 0 to |tevs|
        modifies buf
        invariant forall k :: 0 <= k < i ==> convert(tevs[k]).Ok? && buf[k] == convert(tevs[k]).value
      {
        var res := convert(tevs[i]);
        if res.Err? {
          return Some(res.error);
        }
        buf[i] := res.value;
      }
      EmitEvents(buf[..]);
      return None;
    }
  }
}
