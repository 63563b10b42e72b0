/**
 Definitions shared by both variants of the Observer pattern: the identity of an
 observer, the record of one `update` call, and the fan-out that `notify` performs.

 An observer is known to a subject only through a non-owning handle (a pointer in
 the C++ program).  The model keeps nothing of the observer but that handle; what
 an observer's `update` does (it prints a line) is recorded as one `Notification`
 appended to the subject's log.
 */
module Observers {

  /** The identity (address) of an observer object. */
  type ObserverId = nat

  /** The two observer objects that both programs create on the stack. */
  const PhoneDisplay: ObserverId := 0
  const WeatherApp: ObserverId := 1

  /** One call `observer->update(value)`. */
  datatype Notification<V> = Notification(observer: ObserverId, value: V)

  /** The updates one `notify(v)` delivers: one per registered handle, in list order. */
  function FanOut<V>(observers: seq<ObserverId>, v: V): (r: seq<Notification<V>>)
    ensures |r| == |observers|
  {
    if observers == [] then [] else [Notification(observers[0], v)] + FanOut(observers[1..], v)
  }

  /** The handles a log was delivered to, in delivery order. */
  function Recipients<V>(log: seq<Notification<V>>): (r: seq<ObserverId>)
    ensures |r| == |log|
  {
    if log == [] then [] else [log[0].observer] + Recipients(log[1..])
  }

  /** The values one observer received, in the order it received them. */
  function Received<V>(log: seq<Notification<V>>, x: ObserverId): (r: seq<V>)
    ensures |r| <= |log|
  {
    if log == [] then []
    else (if log[0].observer == x then [log[0].value] else []) + Received(log[1..], x)
  }

  /** `n` copies of `v`. */
  function Copies<V>(v: V, n: nat): (r: seq<V>)
  {
    if n == 0 then [] else [v] + Copies(v, n - 1)
  }

  /** The i-th update of a fan-out goes to the i-th handle and carries the notified value. */
  lemma {:induction false} FanOutAt<V>(observers: seq<ObserverId>, v: V, i: nat)
    requires i < |observers|
    ensures FanOut(observers, v)[i] == Notification(observers[i], v)
  {
    if i > 0 {
      FanOutAt(observers[1..], v, i - 1);
    }
  }

  /** Every update of one fan-out carries the same value. */
  lemma FanOutCarries<V>(observers: seq<ObserverId>, v: V)
    ensures forall n :: n in FanOut(observers, v) ==> n.value == v
  {
    forall n | n in FanOut(observers, v) ensures n.value == v {
      var i :| 0 <= i < |FanOut(observers, v)| && FanOut(observers, v)[i] == n;
      FanOutAt(observers, v, i);
    }
  }

  /** Fanning out over a concatenation is fanning out over each part in turn. */
  lemma {:induction false} FanOutAppend<V>(a: seq<ObserverId>, b: seq<ObserverId>, v: V)
    ensures FanOut(a + b, v) == FanOut(a, v) + FanOut(b, v)
  {
    if a != [] {
      assert (a + b)[1..] == a[1..] + b;
      FanOutAppend(a[1..], b, v);
    } else {
      assert a + b == b;
    }
  }

  /** A fan-out is delivered to exactly the registered handles, in their order. */
  lemma {:induction false} RecipientsOfFanOut<V>(observers: seq<ObserverId>, v: V)
    ensures Recipients(FanOut(observers, v)) == observers
  {
    if observers != [] {
      RecipientsOfFanOut(observers[1..], v);
    }
  }

  /** No handle, no update. */
  lemma FanOutEmpty<V>(observers: seq<ObserverId>, v: V)
    ensures FanOut(observers, v) == [] <==> observers == []
  {
  }

  lemma {:induction false} ReceivedAppend<V>(a: seq<Notification<V>>, b: seq<Notification<V>>, x: ObserverId)
    ensures Received(a + b, x) == Received(a, x) + Received(b, x)
  {
    if a != [] {
      assert (a + b)[1..] == a[1..] + b;
      ReceivedAppend(a[1..], b, x);
    } else {
      assert a + b == b;
    }
  }

  /**
   An observer registered k times receives the notified value exactly k times from
   one fan-out (duplicates are not merged); one not registered receives nothing.
   */
  lemma {:induction false} ReceivedFanOut<V>(observers: seq<ObserverId>, v: V, x: ObserverId)
    ensures Received(FanOut(observers, v), x) == Copies(v, multiset(observers)[x])
  {
    if observers != [] {
      assert observers == [observers[0]] + observers[1..];
      assert multiset(observers)[x] == multiset(observers[1..])[x] + (if observers[0] == x then 1 else 0);
      assert FanOut(observers, v)[1..] == FanOut(observers[1..], v);
      ReceivedFanOut(observers[1..], v, x);
    }
  }
}
