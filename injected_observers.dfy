/**
 The constructor-injected subject of main.cpp: a `Subject` whose observer list is
 fixed when it is built, and a `WeatherStation` holding a temperature with the
 mutators `setData`, `add` and `subtract`, each of which changes the temperature
 and then notifies every observer of the new value.

 The C++ temperature is a `float`.  The model keeps its type abstract (the type
 parameter `T`) and receives the program's float arithmetic as `FloatOps`: the
 literal `0.0f` and the operators `+=` and `-=`, about which nothing is assumed.
 */
module InjectedObservers {
  import opened Observers

  /** The float operations the station uses, left uninterpreted. */
  datatype FloatOps<!T> = FloatOps(zero: T, add: (T, T) -> T, sub: (T, T) -> T)

  /** One call of a mutator of `WeatherStation`. */
  datatype Mutator<T> = SetData(v: T) | Add(v: T) | Subtract(v: T)

  /** The temperature a mutator call leaves, given the temperature before it. */
  function Apply<T>(arith: FloatOps<T>, m: Mutator<T>, t: T): (r: T)
  {
    match m
    case SetData(v) => v
    case Add(v) => arith.add(t, v)
    case Subtract(v) => arith.sub(t, v)
  }

  /** The temperature after each call of a sequence of mutator calls, starting from `t`. */
  function Temperatures<T>(arith: FloatOps<T>, t: T, ms: seq<Mutator<T>>): (r: seq<T>)
    ensures |r| == |ms|
  {
    if ms == [] then []
    else [Apply(arith, ms[0], t)] + Temperatures(arith, Apply(arith, ms[0], t), ms[1..])
  }

  /** The updates a sequence of mutator calls delivers: one fan-out per call. */
  function Trace<T>(arith: FloatOps<T>, observers: seq<ObserverId>, t: T, ms: seq<Mutator<T>>): (r: seq<Notification<T>>)
  {
    if ms == [] then []
    else FanOut(observers, Apply(arith, ms[0], t)) + Trace(arith, observers, Apply(arith, ms[0], t), ms[1..])
  }

  /** The temperature a sequence of mutator calls leaves, starting from `t`. */
  function Final<T>(arith: FloatOps<T>, t: T, ms: seq<Mutator<T>>): (r: T)
  {
    if ms == [] then t else Final(arith, Apply(arith, ms[0], t), ms[1..])
  }

  /** The temperature a sequence of calls leaves is the last one observers were sent. */
  lemma {:induction false} FinalLast<T>(arith: FloatOps<T>, t: T, ms: seq<Mutator<T>>)
    requires ms != []
    ensures Final(arith, t, ms) == Temperatures(arith, t, ms)[|ms| - 1]
  {
    if |ms| > 1 {
      FinalLast(arith, Apply(arith, ms[0], t), ms[1..]);
    }
  }

  /**
   One more mutator call extends the delivered updates by one fan-out of the
   temperature that call leaves, and moves the final temperature accordingly.
   */
  lemma {:induction false} TraceSnoc<T>(arith: FloatOps<T>, observers: seq<ObserverId>, t: T,
                                        ms: seq<Mutator<T>>, m: Mutator<T>)
    ensures Final(arith, t, ms + [m]) == Apply(arith, m, Final(arith, t, ms))
    ensures Trace(arith, observers, t, ms + [m])
            == Trace(arith, observers, t, ms) + FanOut(observers, Apply(arith, m, Final(arith, t, ms)))
  {
    if ms == [] {
      assert [] + [m] == [m] && [m][1..] == [];
    } else {
      assert (ms + [m])[1..] == ms[1..] + [m];
      TraceSnoc(arith, observers, Apply(arith, ms[0], t), ms[1..], m);
    }
  }

  /** Each value of `ts`, `k` times over. */
  function Repeat<T>(ts: seq<T>, k: nat): (r: seq<T>)
  {
    if ts == [] then [] else Copies(ts[0], k) + Repeat(ts[1..], k)
  }

  /**
   Over any sequence of mutator calls, an observer registered k times receives, for
   each call, k updates carrying the temperature as it stands after that call.
   */
  lemma {:induction false} TraceReceived<T>(arith: FloatOps<T>, observers: seq<ObserverId>, t: T,
                                            ms: seq<Mutator<T>>, x: ObserverId)
    ensures Received(Trace(arith, observers, t, ms), x) == Repeat(Temperatures(arith, t, ms), multiset(observers)[x])
  {
    if ms != [] {
      var t' := Apply(arith, ms[0], t);
      ReceivedAppend(FanOut(observers, t'), Trace(arith, observers, t', ms[1..]), x);
      ReceivedFanOut(observers, t', x);
      TraceReceived(arith, observers, t', ms[1..], x);
    }
  }

  lemma {:induction false} RepeatOnce<T>(ts: seq<T>)
    ensures Repeat(ts, 1) == ts
  {
    if ts != [] {
      RepeatOnce(ts[1..]);
    }
  }

  /**
   An observer registered once receives exactly the successive temperatures, one
   per mutator call; one not registered receives nothing.
   */
  lemma TraceReceivedOnce<T>(arith: FloatOps<T>, observers: seq<ObserverId>, t: T,
                             ms: seq<Mutator<T>>, x: ObserverId)
    ensures multiset(observers)[x] == 1 ==> Received(Trace(arith, observers, t, ms), x) == Temperatures(arith, t, ms)
    ensures x !in observers ==> Received(Trace(arith, observers, t, ms), x) == []
  {
    TraceReceived(arith, observers, t, ms, x);
    RepeatOnce(Temperatures(arith, t, ms));
    RepeatNone(Temperatures(arith, t, ms));
  }

  lemma {:induction false} RepeatNone<T>(ts: seq<T>)
    ensures Repeat(ts, 0) == []
  {
    if ts != [] {
      RepeatNone(ts[1..]);
    }
  }

  class Subject<T> {
    /** Written by the constructor only: no later call changes who is notified. */
    const observers: seq<ObserverId>
    /** Every `update` delivered by this subject so far, oldest first. */
    var log: seq<Notification<T>>

    /** Stores the given observer list verbatim: same order, duplicates kept. */
    constructor (obs: seq<ObserverId>)
      ensures observers == obs && log == []
    {
      observers, log := obs, [];
    }

    /** `o->update(temperature)`: the observer's reaction, recorded as one log entry. */
    method Update(o: ObserverId, temperature: T)
      modifies this`log
      ensures log == old(log) + [Notification(o, temperature)]
    {
      log := log + [Notification(o, temperature)];
    }

    /** Calls `update(temperature)` on every observer, in list order. */
    method Notify(temperature: T)
      modifies this`log
      ensures log == old(log) + FanOut(observers, temperature)
    {
      for i := 0 to |observers|
        invariant log == old(log) + FanOut(observers[..i], temperature)
      {
        assert observers[..i + 1] == observers[..i] + [observers[i]];
        FanOutAppend(observers[..i], [observers[i]], temperature);
        Update(observers[i], temperature);
      }
      assert observers[..|observers|] == observers;
    }
  }

  class WeatherStation<T> {
    /** The `Subject` base-class part of the station. */
    const base: Subject<T>
    const arith: FloatOps<T>
    var temperature: T

    /** Passes the observer list to the `Subject` part; the temperature starts at `0.0f`. */
    constructor (observers: seq<ObserverId>, arith: FloatOps<T>)
      ensures fresh(base) && base.observers == observers && base.log == []
      ensures this.arith == arith && temperature == arith.zero
    {
      base := new Subject(observers);
      this.arith := arith;
      temperature := arith.zero;
    }

    method SetData(newTemp: T)
      modifies this`temperature, base`log
      ensures temperature == newTemp
      ensures base.log == old(base.log) + FanOut(base.observers, temperature)
    {
      temperature := newTemp;
      base.Notify(temperature);
    }

    method Add(value: T)
      modifies this`temperature, base`log
      ensures temperature == arith.add(old(temperature), value)
      ensures base.log == old(base.log) + FanOut(base.observers, temperature)
    {
      temperature := arith.add(temperature, value);
      base.Notify(temperature);
    }

    method Subtract(value: T)
      modifies this`temperature, base`log
      ensures temperature == arith.sub(old(temperature), value)
      ensures base.log == old(base.log) + FanOut(base.observers, temperature)
    {
      temperature := arith.sub(temperature, value);
      base.Notify(temperature);
    }

    /** Reads the temperature; changes nothing. */
    method GetTemperature() returns (t: T)
      ensures t == temperature
    {
      t := temperature;
    }
  }

  /**
   Performs a sequence of mutator calls on a station, each by its own method: the
   station delivers exactly `Trace` of those calls and ends at their `Final`
   temperature.
   */
  method Run<T>(station: WeatherStation<T>, ms: seq<Mutator<T>>)
    modifies station`temperature, station.base`log
    ensures station.temperature == Final(station.arith, old(station.temperature), ms)
    ensures station.base.log
            == old(station.base.log) + Trace(station.arith, station.base.observers, old(station.temperature), ms)
  {
    for i := 0 to |ms|
      invariant station.temperature == Final(station.arith, old(station.temperature), ms[..i])
      invariant station.base.log
                == old(station.base.log) + Trace(station.arith, station.base.observers, old(station.temperature), ms[..i])
    {
      assert ms[..i + 1] == ms[..i] + [ms[i]];
      TraceSnoc(station.arith, station.base.observers, old(station.temperature), ms[..i], ms[i]);
      match ms[i]
      case SetData(v) => station.SetData(v);
      case Add(v) => station.Add(v);
      case Subtract(v) => station.Subtract(v);
    }
    assert ms[..|ms|] == ms;
  }

  /**
   The calls of main.cpp's `main`: observers [PhoneDisplay, WeatherApp] injected,
   then `setData(25)`, `add(5)`, `subtract(3)`.  The literals are parameters, since
   the float values are not modelled.
   */
  method MainScenario<T>(arith: FloatOps<T>, twentyFive: T, five: T, three: T)
    returns (log: seq<Notification<T>>, final: T)
    ensures log == Trace(arith, [PhoneDisplay, WeatherApp], arith.zero,
                         [SetData(twentyFive), Mutator.Add(five), Mutator.Subtract(three)])
    ensures final == arith.sub(arith.add(twentyFive, five), three)
    ensures log == [Notification(PhoneDisplay, twentyFive), Notification(WeatherApp, twentyFive),
                    Notification(PhoneDisplay, arith.add(twentyFive, five)),
                    Notification(WeatherApp, arith.add(twentyFive, five)),
                    Notification(PhoneDisplay, final), Notification(WeatherApp, final)]
  {
    var station := new WeatherStation([PhoneDisplay, WeatherApp], arith);
    station.SetData(twentyFive);
    station.Add(five);
    station.Subtract(three);
    log := station.base.log;
    final := station.GetTemperature();
    ghost var ms := [SetData(twentyFive), Mutator.Add(five), Mutator.Subtract(three)];
    ghost var obs := [PhoneDisplay, WeatherApp];
    ghost var t1 := arith.add(twentyFive, five);
    assert ms[1..] == [Mutator.Add(five), Mutator.Subtract(three)] && ms[2..] == [Mutator.Subtract(three)];
    assert Trace(arith, obs, t1, ms[2..]) == FanOut(obs, final) + Trace(arith, obs, final, []);
    assert Trace(arith, obs, twentyFive, ms[1..]) == FanOut(obs, t1) + Trace(arith, obs, t1, ms[2..]);
  }
}
