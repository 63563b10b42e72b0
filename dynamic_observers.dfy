/**
 The dynamic subject of simpleMain.cpp: a `Subject` whose observer list grows with
 `attach` (push_back) and shrinks with `detach` (the erase-remove idiom), and a
 `WeatherStation` that stores a weather description and then notifies.

 The C++ `WeatherStation` derives from `Subject`; here it holds its `Subject`
 part as the constant field `base`, so `station.attach(p)` reads `station.base.Attach(p)`.
 */
module DynamicObservers {
  import opened Observers

  /** The list that erase-remove leaves: every entry other than `x`, in its original order. */
  function Remove(s: seq<ObserverId>, x: ObserverId): (r: seq<ObserverId>)
  {
    if s == [] then []
    else if s[0] == x then Remove(s[1..], x)
    else [s[0]] + Remove(s[1..], x)
  }

  /** `t` is `s` with some entries dropped and the rest kept in order. */
  predicate IsSubsequence(t: seq<ObserverId>, s: seq<ObserverId>)
    decreases |s|
  {
    if s == [] then t == []
    else (t != [] && t[0] == s[0] && IsSubsequence(t[1..], s[1..])) || IsSubsequence(t, s[1..])
  }

  lemma {:induction false} RemoveAppend(a: seq<ObserverId>, b: seq<ObserverId>, x: ObserverId)
    ensures Remove(a + b, x) == Remove(a, x) + Remove(b, x)
  {
    if a == [] {
      assert a + b == b;
    } else {
      assert (a + b)[1..] == a[1..] + b;
      RemoveAppend(a[1..], b, x);
    }
  }

  /**
   After removal `x` does not occur at all, and every other handle occurs exactly as
   often as before.
   */
  lemma {:induction false} RemoveContents(s: seq<ObserverId>, x: ObserverId)
    ensures x !in Remove(s, x)
    ensures multiset(Remove(s, x)) == multiset(s)[x := 0]
    ensures forall y :: y in Remove(s, x) <==> y in s && y != x
  {
    if s != [] {
      assert s == [s[0]] + s[1..];
      RemoveContents(s[1..], x);
    }
  }

  /** Removal is stable: what is left keeps its relative order. */
  lemma {:induction false} RemoveIsSubsequence(s: seq<ObserverId>, x: ObserverId)
    ensures IsSubsequence(Remove(s, x), s)
  {
    if s != [] {
      RemoveIsSubsequence(s[1..], x);
      if s[0] != x {
        assert ([s[0]] + Remove(s[1..], x))[1..] == Remove(s[1..], x);
      }
    }
  }

  lemma {:induction false} SubsequenceMultiset(t: seq<ObserverId>, s: seq<ObserverId>)
    requires IsSubsequence(t, s)
    ensures multiset(t) <= multiset(s)
    decreases |s|
  {
    if s != [] {
      assert s == [s[0]] + s[1..];
      if IsSubsequence(t, s[1..]) {
        SubsequenceMultiset(t, s[1..]);
      } else {
        assert t == [t[0]] + t[1..];
        SubsequenceMultiset(t[1..], s[1..]);
      }
    }
  }

  /**
   `Remove` is the only stable removal: any subsequence of `s` that holds exactly the
   entries of `s` other than `x` is `Remove(s, x)`.
   */
  lemma {:induction false} RemoveUnique(t: seq<ObserverId>, s: seq<ObserverId>, x: ObserverId)
    requires IsSubsequence(t, s)
    requires multiset(t) == multiset(s)[x := 0]
    ensures t == Remove(s, x)
    decreases |s|
  {
    if s == [] {
      assert |multiset(t)| == 0;
    } else {
      var a := s[0];
      assert s == [a] + s[1..];
      if a == x {
        assert multiset(s)[x := 0] == multiset(s[1..])[x := 0];
        if t != [] {
          assert t[0] in multiset(t);
        }
        RemoveUnique(t, s[1..], x);
      } else if IsSubsequence(t, s[1..]) {
        assert multiset(t)[a] == multiset(s[1..])[a] + 1;
        SubsequenceMultiset(t, s[1..]);
        assert false;
      } else {
        assert t == [a] + t[1..];
        forall y ensures multiset(t[1..])[y] == multiset(s[1..])[x := 0][y] {
          assert multiset(t)[y] == multiset(t[1..])[y] + (if y == a then 1 else 0);
        }
        assert multiset(t[1..]) == multiset(s[1..])[x := 0];
        RemoveUnique(t[1..], s[1..], x);
      }
    }
  }

  /**
   Attaching `x` twice makes every later notification reach it two more times:
   `attach` does not merge duplicates.
   */
  lemma AttachTwiceDeliversTwice<V>(s: seq<ObserverId>, x: ObserverId, v: V)
    ensures Received(FanOut(s + [x] + [x], v), x) == Received(FanOut(s, v), x) + [v, v]
  {
    FanOutAppend(s + [x], [x], v);
    FanOutAppend(s, [x], v);
    ReceivedAppend(FanOut(s, v) + FanOut([x], v), FanOut([x], v), x);
    ReceivedAppend(FanOut(s, v), FanOut([x], v), x);
    assert FanOut([x], v) == [Notification(x, v)];
    assert Received(FanOut([x], v), x) == [v];
  }

  /** Detaching a handle that is not attached changes nothing. */
  lemma {:induction false} RemoveAbsent(s: seq<ObserverId>, x: ObserverId)
    requires x !in s
    ensures Remove(s, x) == s
  {
    if s != [] {
      RemoveAbsent(s[1..], x);
    }
  }

  /** Detaching twice in a row is detaching once. */
  lemma RemoveIdempotent(s: seq<ObserverId>, x: ObserverId)
    ensures Remove(Remove(s, x), x) == Remove(s, x)
  {
    RemoveContents(s, x);
    RemoveAbsent(Remove(s, x), x);
  }

  /**
   Once `x` is detached a notification reaches it no more, while every other
   observer receives exactly what it would have received without the detach.
   */
  lemma {:induction false} DetachSilences<V>(s: seq<ObserverId>, x: ObserverId, v: V)
    ensures Received(FanOut(Remove(s, x), v), x) == []
    ensures forall y :: y != x ==> Received(FanOut(Remove(s, x), v), y) == Received(FanOut(s, v), y)
  {
    RemoveContents(s, x);
    ReceivedFanOut(Remove(s, x), v, x);
    forall y | y != x
      ensures Received(FanOut(Remove(s, x), v), y) == Received(FanOut(s, v), y)
    {
      ReceivedFanOut(Remove(s, x), v, y);
      ReceivedFanOut(s, v, y);
    }
  }

  /**
   The compaction loop of `std::remove`: every entry other than `x` is moved
   forward to the write position `w`; afterwards `buf[..w]` is the kept part and
   `buf[w..]` is the tail that `erase` drops.
   */
  method StdRemove(s: seq<ObserverId>, x: ObserverId) returns (buf: seq<ObserverId>, w: nat)
    ensures |buf| == |s| && w <= |buf|
    ensures buf[..w] == Remove(s, x)
  {
    buf, w := s, 0;
    for i := 0 to |s|
      invariant |buf| == |s| && w <= i
      invariant buf[..w] == Remove(s[..i], x)
      invariant buf[i..] == s[i..]
    {
      assert s[..i + 1] == s[..i] + [s[i]];
      RemoveAppend(s[..i], [s[i]], x);
      if buf[i] != x {
        buf := buf[w := buf[i]];
        w := w + 1;
      }
      assert buf[i + 1..] == s[i + 1..];
    }
    assert s[..|s|] == s;
  }

  class Subject {
    var observers: seq<ObserverId>
    /** Every `update` delivered by this subject so far, oldest first. */
    var log: seq<Notification<string>>

    constructor ()
      ensures observers == [] && log == []
    {
      observers, log := [], [];
    }

    /** Appends `x`; earlier entries stay, and a handle attached twice is held twice. */
    method Attach(x: ObserverId)
      modifies this`observers
      ensures observers == old(observers) + [x]
    {
      observers := observers + [x];
    }

    /** Removes every entry equal to `x` and keeps the others in order (erase-remove). */
    method Detach(x: ObserverId)
      modifies this`observers
      ensures observers == Remove(old(observers), x)
    {
      var buf, w := StdRemove(observers, x);
      observers := buf[..w];
    }

    /** `o->update(message)`: the observer's reaction, recorded as one log entry. */
    method Update(o: ObserverId, message: string)
      modifies this`log
      ensures log == old(log) + [Notification(o, message)]
    {
      log := log + [Notification(o, message)];
    }

    /** Calls `update(message)` on every attached observer, in list order. */
    method Notify(message: string)
      modifies this`log
      ensures log == old(log) + FanOut(observers, message)
      ensures observers == old(observers)
    {
      for i := 0 to |observers|
        invariant log == old(log) + FanOut(observers[..i], message)
      {
        assert observers[..i + 1] == observers[..i] + [observers[i]];
        FanOutAppend(observers[..i], [observers[i]], message);
        Update(observers[i], message);
      }
      assert observers[..|observers|] == observers;
    }
  }

  class WeatherStation {
    /** The `Subject` base-class part of the station. */
    const base: Subject
    var weather: string

    constructor ()
      ensures fresh(base) && base.observers == [] && base.log == [] && weather == ""
    {
      base := new Subject();
      weather := "";
    }

    /** Stores the new weather, then notifies every attached observer of the stored value. */
    method SetWeather(newWeather: string)
      modifies this`weather, base`log
      ensures weather == newWeather
      ensures base.log == old(base.log) + FanOut(base.observers, weather)
      ensures base.observers == old(base.observers)
    {
      weather := newWeather;
      base.Notify(weather);
    }
  }

  /** The calls of simpleMain.cpp's `main`, and the updates they deliver. */
  method SimpleMainScenario() returns (log: seq<Notification<string>>)
    ensures log == [Notification(PhoneDisplay, "Sunny"), Notification(WeatherApp, "Sunny"),
                    Notification(PhoneDisplay, "Rainy"), Notification(WeatherApp, "Rainy")]
  {
    var station := new WeatherStation();
    station.base.Attach(PhoneDisplay);
    station.base.Attach(WeatherApp);
    station.SetWeather("Sunny");
    station.SetWeather("Rainy");
    log := station.base.log;
  }

  /**
   Attach both observers, set "Sunny", detach the phone display, set "Rainy": the
   phone display receives "Sunny" only, the weather app receives both.
   */
  method DetachScenario() returns (log: seq<Notification<string>>)
    ensures log == [Notification(PhoneDisplay, "Sunny"), Notification(WeatherApp, "Sunny"),
                    Notification(WeatherApp, "Rainy")]
    ensures Received(log, PhoneDisplay) == ["Sunny"]
    ensures Received(log, WeatherApp) == ["Sunny", "Rainy"]
  {
    var station := new WeatherStation();
    station.base.Attach(PhoneDisplay);
    station.base.Attach(WeatherApp);
    station.SetWeather("Sunny");
    assert [PhoneDisplay, WeatherApp][1..] == [WeatherApp] && [WeatherApp][1..] == [];
    assert Remove([WeatherApp], PhoneDisplay) == [WeatherApp] + Remove([], PhoneDisplay);
    assert Remove([PhoneDisplay, WeatherApp], PhoneDisplay) == [WeatherApp];
    station.base.Detach(PhoneDisplay);
    assert station.base.observers == [WeatherApp];
    station.SetWeather("Rainy");
    log := station.base.log;
    assert log[1..] == [Notification(WeatherApp, "Sunny"), Notification(WeatherApp, "Rainy")];
    assert log[2..] == [Notification(WeatherApp, "Rainy")] && log[2..][1..] == [];
    assert Received(log[2..], PhoneDisplay) == [] + Received(log[2..][1..], PhoneDisplay);
    assert Received(log[2..], WeatherApp) == ["Rainy"] + Received(log[2..][1..], WeatherApp);
  }
}
