/** `EventHub`: the registry that routes a change of one kind to every listener that
    subscribed to that kind. A listener subscribed several times to a kind is told several
    times. Listeners are values of any type; what a listener does with an event is outside
    the hub. */
module EventHub {

  datatype EventType = Axis | Analysis | DerivedData | Filters | Graph | Series

  /** Every event type, in declaration order. */
  const AllTypes: seq<EventType> := [Axis, Analysis, DerivedData, Filters, Graph, Series]

  /** The subscriptions: for each event type, its listeners in subscription order. A type
      without an entry has no listeners (the map of lists gives an empty list). */
  type Hub<L> = map<EventType, seq<L>>

  function Listeners<L>(h: Hub<L>, t: EventType): seq<L> {
    if t in h then h[t] else []
  }

  /** `new EventHub(...)`: no subscriptions. */
  function NewHub<L>(): (h: Hub<L>)
    ensures forall t :: Listeners(h, t) == []
  {
    map[]
  }

  /** How many times `x` occurs in `s`. */
  function Occurrences<T(==)>(x: T, s: seq<T>): (n: nat)
    ensures n <= |s|
  {
    if s == [] then 0 else (if s[0] == x then 1 else 0) + Occurrences(x, s[1..])
  }

  /** `n` copies of `x`. */
  function Copies<L>(x: L, n: nat): (r: seq<L>)
    ensures |r| == n
  {
    if n == 0 then [] else [x] + Copies(x, n - 1)
  }

  /** Appends the listener to the list of one type. */
  function Subscribe<L>(h: Hub<L>, l: L, t: EventType): (r: Hub<L>)
    ensures Listeners(r, t) == Listeners(h, t) + [l]
    ensures forall u :: u != t ==> Listeners(r, u) == Listeners(h, u)
  {
    h[t := Listeners(h, t) + [l]]
  }

  /** Subscribes the listener to each type of `ts` in turn. */
  function SubscribeEach<L>(h: Hub<L>, l: L, ts: seq<EventType>): (r: Hub<L>)
    decreases |ts|
  {
    if ts == [] then h else SubscribeEach(Subscribe(h, l, ts[0]), l, ts[1..])
  }

  /** `addEventListener(l, types...)`: to the given types, or to all six when none are
      given. */
  function AddEventListener<L>(h: Hub<L>, l: L, ts: seq<EventType>): (r: Hub<L>)
  {
    SubscribeEach(h, l, if ts == [] then AllTypes else ts)
  }

  /** `notifyEvent(t)`: the listeners told of the event, in the order they are told: one
      call per subscription to `t`, in subscription order. */
  function NotifyEvent<L>(h: Hub<L>, t: EventType): (r: seq<L>)
    ensures |r| == |Listeners(h, t)|
  {
    Listeners(h, t)
  }

  /** One subscription followed by `n` more copies of the listener. */
  lemma SubscribeStep<L>(h: Hub<L>, l: L, u: EventType, t: EventType, n: nat)
    ensures Listeners(Subscribe(h, l, u), t) + Copies(l, n)
            == Listeners(h, t) + Copies(l, n + (if u == t then 1 else 0))
  {
    if u == t {
      var before := Listeners(h, t);
      var c := Copies(l, n);
      assert Copies(l, n + 1) == [l] + c;
      assert (before + [l]) + c == before + ([l] + c);
    }
  }

  /** Subscribing to each type of `ts` adds the listener to the end of the list of `t` once
      per occurrence of `t` in `ts`, and leaves the list otherwise as it was. */
  lemma {:induction false} SubscribeEachListeners<L>(h: Hub<L>, l: L, ts: seq<EventType>, t: EventType)
    ensures Listeners(SubscribeEach(h, l, ts), t) == Listeners(h, t) + Copies(l, Occurrences(t, ts))
    decreases |ts|
  {
    if ts == [] {
      assert Listeners(h, t) + [] == Listeners(h, t);
    } else {
      var h' := Subscribe(h, l, ts[0]);
      SubscribeEachListeners(h', l, ts[1..], t);
      SubscribeStep(h, l, ts[0], t, Occurrences(t, ts[1..]));
    }
  }

  /** Every event type occurs exactly once in the list of all types. */
  lemma AllTypesOnce(t: EventType)
    ensures Occurrences(t, AllTypes) == 1
  {
    assert AllTypes[1..] == [Analysis, DerivedData, Filters, Graph, Series];
    assert AllTypes[2..] == [DerivedData, Filters, Graph, Series];
    assert AllTypes[3..] == [Filters, Graph, Series];
    assert AllTypes[4..] == [Graph, Series];
    assert AllTypes[5..] == [Series];
  }

  /** An element occurs no times exactly when it is absent. */
  lemma {:induction false} OccurrencesAbsent<T>(x: T, s: seq<T>)
    ensures Occurrences(x, s) == 0 <==> x !in s
  {
    if s != [] {
      OccurrencesAbsent(x, s[1..]);
      assert s == [s[0]] + s[1..];
    }
  }

  /** After `addEventListener(l, ts)`, notifying `t` tells the earlier listeners as before
      and then `l` once per occurrence of `t` in `ts`, or exactly once when `ts` is empty. */
  lemma NotifyAfterAdd<L>(h: Hub<L>, l: L, ts: seq<EventType>, t: EventType)
    ensures NotifyEvent(AddEventListener(h, l, ts), t)
            == NotifyEvent(h, t) + Copies(l, if ts == [] then 1 else Occurrences(t, ts))
  {
    if ts == [] {
      AllTypesOnce(t);
      SubscribeEachListeners(h, l, AllTypes, t);
    } else {
      SubscribeEachListeners(h, l, ts, t);
    }
  }

  /** A listener added for other types only is not told of `t`: the listeners of `t` are
      unchanged. */
  lemma NotSubscribedNotNotified<L>(h: Hub<L>, l: L, ts: seq<EventType>, t: EventType)
    requires ts != [] && t !in ts
    ensures NotifyEvent(AddEventListener(h, l, ts), t) == NotifyEvent(h, t)
  {
    OccurrencesAbsent(t, ts);
    NotifyAfterAdd(h, l, ts, t);
  }

  /** A fresh hub tells nobody; subscribing with no types makes a listener hear every
      event exactly once. */
  lemma SubscribeToAll<L>(l: L, t: EventType)
    ensures NotifyEvent(NewHub<L>(), t) == []
    ensures NotifyEvent(AddEventListener(NewHub(), l, []), t) == [l]
  {
    NotifyAfterAdd(NewHub(), l, [], t);
  }
}
