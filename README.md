# Observer pattern: weather station subjects and their observers

This project models the two Observer-pattern programs of the repository in Dafny and
proves what their notification fan-out does.

- **Shared notions** (`observers.dfy`, module `Observers`). An observer is a non-owning
  handle (`ObserverId`, the object's address). One `update` call is a
  `Notification(observer, value)`. `FanOut(observers, v)` is the list of updates that one
  `notify(v)` delivers. `Recipients` and `Received` read a log back: who was updated, and
  which values one observer received.
- **Dynamic subject** (`dynamic_observers.dfy`, module `DynamicObservers`, from
  simpleMain.cpp). `Subject` has a `seq` of handles. `Attach` appends to it (`push_back`).
  `Detach` removes every occurrence with the erase-remove idiom: `StdRemove` is the
  compaction loop of `std::remove`, and taking the prefix is `erase`. `Notify` loops over
  the list. `WeatherStation.SetWeather` stores the string, then notifies. The
  specification function `Remove` is proved stable and unique.
- **Constructor-injected subject** (`injected_observers.dfy`, module `InjectedObservers`,
  from main.cpp). The `Subject`'s handle list is a `const` field, so only its
  constructor writes it. `WeatherStation<T>` holds a temperature of abstract type `T`.
  `SetData`, `Add` and `Subtract` mutate it and then notify with the new value.
  `Trace` describes what any sequence of mutator calls delivers, and `Run`, which
  performs such a sequence through the station's own methods, is proved to deliver it.

Each observer's `update` only prints a line. The model records that call as an entry
appended to the subject's `log` field. The log is the observable behaviour, and every
method states how it extends the log, or by its frame that it leaves it as it was.

The C++ `WeatherStation` derives from `Subject`. Here the station holds its `Subject`
part as the constant field `base`, so `station.attach(&p)` reads
`station.base.Attach(p)`.

## Model

| member | source | states |
|---|---|---|
| `Observers.FanOut` | simpleMain.cpp:29-33 | one notify delivers exactly as many updates as there are registered handles |
| `Observers.FanOutAt` | simpleMain.cpp:30-32 | the i-th update of a notify goes to the i-th registered handle and carries the notified value (list order) |
| `Observers.FanOutCarries` | main.cpp:16-20 | every update of one notify carries the same value, the one passed to notify |
| `Observers.FanOutAppend` | simpleMain.cpp:29-33 | notifying a list `a + b` delivers to `a` first, then to `b` |
| `Observers.RecipientsOfFanOut` | simpleMain.cpp:29-33 | the handles updated by a notify are exactly the registered list, in order, duplicates included |
| `Observers.FanOutEmpty` | simpleMain.cpp:29-33 | notify delivers nothing exactly when no observer is registered |
| `Observers.ReceivedFanOut` | simpleMain.cpp:29-33 | an observer registered k times receives the notified value exactly k times; one not registered receives nothing |
| `DynamicObservers.RemoveAppend` | simpleMain.cpp:26 | removing from a concatenation removes from each part and keeps the parts in order |
| `DynamicObservers.RemoveContents` | simpleMain.cpp:26 | after detach `x` occurs nowhere; every other handle keeps its multiplicity; a handle remains iff it was there and is not `x` |
| `DynamicObservers.RemoveIsSubsequence` | simpleMain.cpp:26 | erase-remove is stable: the remaining entries keep their relative order |
| `DynamicObservers.RemoveUnique` | simpleMain.cpp:26 | any order-preserving subsequence holding exactly the non-`x` entries equals `Remove`, so `Remove` is determined by stability plus contents |
| `DynamicObservers.AttachTwiceDeliversTwice` | simpleMain.cpp:21-23 | attaching a handle twice makes a later notify reach it twice more (no deduplication) |
| `DynamicObservers.RemoveAbsent` | simpleMain.cpp:26 | detaching a handle that is not attached leaves the list unchanged |
| `DynamicObservers.RemoveIdempotent` | simpleMain.cpp:26 | detaching the same handle twice in a row equals detaching it once |
| `DynamicObservers.DetachSilences` | simpleMain.cpp:25-33 | after detach, a notify reaches `x` no more, and every other observer receives what it would have received had `x` stayed |
| `DynamicObservers.StdRemove` | simpleMain.cpp:26 | the `std::remove` compaction loop leaves a buffer of the same length whose prefix up to the returned end is `Remove(s, x)` |
| `DynamicObservers.Subject.constructor` | simpleMain.cpp:16-18 | a new subject has no observers and has delivered nothing |
| `DynamicObservers.Subject.Attach` | simpleMain.cpp:21-23 | the list becomes the old list plus `x` at the end; only the list changes |
| `DynamicObservers.Subject.Detach` | simpleMain.cpp:25-27 | the list becomes `Remove(old list, x)`; only the list changes |
| `DynamicObservers.Subject.Update` | simpleMain.cpp:50-62 | one `update` call appends one entry for that observer and message to the log |
| `DynamicObservers.Subject.Notify` | simpleMain.cpp:29-33 | the log grows by `FanOut(list, message)` and the list is unchanged |
| `DynamicObservers.WeatherStation.constructor` | simpleMain.cpp:37-39 | a new station's weather is the empty string; its subject part is fresh, empty and silent |
| `DynamicObservers.WeatherStation.SetWeather` | simpleMain.cpp:42-45 | the weather becomes the argument, then the log grows by one entry per observer, in order, each carrying the stored weather; the list is unchanged |
| `DynamicObservers.SimpleMainScenario` | simpleMain.cpp:65-79 | attach Phone, attach App, "Sunny", "Rainy" delivers (Phone, Sunny), (App, Sunny), (Phone, Rainy), (App, Rainy) |
| `DynamicObservers.DetachScenario` | simpleMain.cpp:21-45 | attach Phone and App, "Sunny", detach Phone, "Rainy": Phone receives only "Sunny", App receives "Sunny" then "Rainy" |
| `InjectedObservers.FinalLast` | main.cpp:34-51 | after a non-empty sequence of mutator calls, the temperature the station holds (and `getTemperature` returns) is the last temperature every observer was sent |
| `InjectedObservers.TraceSnoc` | main.cpp:34-47 | one more mutator call appends one fan-out of the temperature it leaves and moves the final temperature by that call |
| `InjectedObservers.Run` | main.cpp:34-47 | performing any sequence of mutator calls with `SetData`/`Add`/`Subtract` leaves the station at `Final` of the calls and extends its log by exactly `Trace` of them |
| `InjectedObservers.TraceReceived` | main.cpp:34-47 | over any sequence of mutator calls (as `Run` performs them on a station), an observer registered k times receives k updates per call, each carrying the temperature after that call |
| `InjectedObservers.TraceReceivedOnce` | main.cpp:34-47 | over any sequence of mutator calls (as `Run` performs them), an observer registered once receives exactly the successive post-mutation temperatures; an unregistered one receives nothing |
| `InjectedObservers.Subject.constructor` | main.cpp:23 | the subject stores the given list verbatim (order and duplicates kept); the list is a constant afterwards |
| `InjectedObservers.Subject.Update` | main.cpp:55-67 | one `update` call appends one entry for that observer and temperature to the log |
| `InjectedObservers.Subject.Notify` | main.cpp:16-20 | the log grows by `FanOut(list, temperature)` |
| `InjectedObservers.WeatherStation.constructor` | main.cpp:32 | the subject part holds the injected list and has delivered nothing; the temperature is `0.0f` |
| `InjectedObservers.WeatherStation.SetData` | main.cpp:34-37 | the temperature becomes the argument, then every observer, in order, receives the new temperature |
| `InjectedObservers.WeatherStation.Add` | main.cpp:39-42 | the temperature becomes old + value, then every observer, in order, receives the new temperature |
| `InjectedObservers.WeatherStation.Subtract` | main.cpp:44-47 | the temperature becomes old - value, then every observer, in order, receives the new temperature |
| `InjectedObservers.WeatherStation.GetTemperature` | main.cpp:49-51 | returns the current temperature and changes nothing |
| `InjectedObservers.MainScenario` | main.cpp:69-85 | observers [Phone, App], then setData(25), add(5), subtract(3): the log is (Phone, 25), (App, 25), then both with 25+5, then both with the final temperature |

## Left out

- Console output: each concrete observer's `update` prints a labelled line. The model
  records only the observer handle and the value delivered.
- Float arithmetic: the temperature type is the type parameter `T`. The literal `0.0f`
  and the operators `+=` and `-=` are supplied as `FloatOps` and are not interpreted, so
  IEEE rounding is not modelled. In `MainScenario` the literals 25, 5 and 3 are parameters.
- Memory and lifetime: raw pointers, dangling observers, virtual dispatch and the missing
  virtual destructor. Observers are plain identities. Inheritance from `Subject` is
  modelled as the `base` field.
- Attaching or detaching from inside an `update` during a notify. The source does not
  define it, and the model's `update` cannot change the observer list.
- `DynamicObservers.StdRemove`: says nothing about the buffer past the returned end,
  because the C++ standard leaves those elements unspecified and `erase` drops them.
- simpleMain.cpp uses `std::remove` without including `<algorithm>`. The model treats the
  call as the standard algorithm.
- Access control: `notify` is `protected` in main.cpp (public in simpleMain.cpp), and every
  data member (both observer lists, the temperature, the weather) is `private`. Dafny cannot hide
  class members here, so any caller of `InjectedObservers.Subject` may call `Notify`, and
  in both modules any caller may call `Update`, assign the temperature or weather, or
  extend `log` directly. Any caller may also assign `DynamicObservers.Subject.observers`
  directly, without going through `Attach` or `Detach`. The "mutation, then notification" order is promised only for
  the mutator methods, not enforced against other callers.
- One shared output stream: the program writes every update to one standard output, but
  the model keeps a log per subject. When one observer is attached to two subjects, the
  interleaving of the two subjects' updates is not recorded. Neither `main` does this.
- The two `main` functions as programs: they appear only as the scenario methods.
- The explanatory comment block at the end of simpleMain.cpp.
