# Service container model

A Dafny model of the type-keyed service container of `Assets/ServiceContainer.cs`: the
binding table (`Dictionary<Type, Binding>`), transient and singleton bindings, the
registration calls `Bind<T>` and `Singleton<T>`, the strict lookup `Get<T>` and the key
listing `GetBindings`.

Layout:

- `wrappers.dfy` — `Option` (where `None` stands for a C# `null`) and `Result`.
- `recipes.dfy` — a recipe (`Func<object>`) as a class with an observable invocation
  counter `Calls` and a fixed answer `Outcome(k)` for its k-th invocation; `CountingYield`
  is the `LocalCount = ++Count` behaviour of the sample services.
- `binding_spec.dfy` — `GetInstance` as a pure step function on a `Slot` (lifecycle,
  cached instance, recipe invocation count), `Run` for n consecutive calls, and the
  lemmas about transient freshness, singleton stability and `null` retry.
- `registry_spec.dfy` — the table as a `map` of entries and `Register`, the remove-then-add
  of both registration calls, with lemmas (last registration wins, other keys untouched,
  size).
- `service_container.dfy` — classes `Binding`, `KeyList` (the caller's `List<string>`) and
  `ServiceContainer`, whose methods change the heap in place and are proved against the two
  specification modules.

`Binding` and `SingletonBinding` become one class with a constant lifecycle tag; its
two named constructors stand for the two C# constructors. `Type` keys are `TypeKey`, a
type's name as a string.

Behaviour that follows `Assets/ServiceContainer.cs` as written:

- A missing key in `Get<T>` fails through the dictionary indexer, so the model's error is
  `KeyNotFound(key)`, not a "type not instantiable" error.
- Registration takes `lazy` (default `true`), the opposite flag of an `eager` parameter.
- Singleton caching is the unsynchronised `Instance ??= Recipe()`, modelled sequentially,
  and a `null` result is not cached: the next call runs the recipe again.

## Model

| member | source | states |
|---|---|---|
| `Recipes.Recipe.Invoke` | Assets/ServiceContainer.cs:69-72 | invoking a recipe counts one more invocation and returns its answer for that invocation number |
| `Recipes.CountingYield` | Assets/DITest.cs:67-76 | the sample factories always yield a non-null instance with a positive counter |
| `BindingSpec.Step` | Assets/ServiceContainer.cs:60-96 | one `GetInstance`: lifecycle kept, transient never caches, recipe runs exactly when transient or cache empty, its result is returned, a filled cache is never cleared or replaced, and a singleton returns its cache |
| `BindingSpec.Run` | Assets/ServiceContainer.cs:69-95 | n calls give n results, keep the lifecycle and well-formedness, and run the recipe at most n times |
| `BindingSpec.TransientRunInvokesEveryTime` | Assets/ServiceContainer.cs:69-72 | n transient calls run the recipe n times, and the i-th returns the recipe's i-th answer; nothing is cached |
| `BindingSpec.CountingTransientIsFresh` | Assets/DITest.cs:21-35 | with the counting sample recipe, n transient calls give n pairwise distinct instances numbered in creation order |
| `BindingSpec.CachedSingletonIsStable` | Assets/ServiceContainer.cs:90-95 | a singleton with a filled cache returns that value on every call and never runs its recipe |
| `BindingSpec.SingletonRunsRecipeOnce` | Assets/ServiceContainer.cs:90-95 | from an empty cache and a non-null first answer, any n >= 1 calls run the recipe exactly once and all return that instance |
| `BindingSpec.NullSingletonIsRetried` | Assets/ServiceContainer.cs:94 | while the recipe yields null the cache stays empty, every call runs the recipe again and returns null |
| `BindingSpec.CachingIffSingleton` | Assets/ServiceContainer.cs:74-77 | two calls run the recipe only once exactly when the binding is a singleton |
| `RegistrySpec.Register` | Assets/ServiceContainer.cs:16-22 | remove-then-add: the key is present with exactly the new entry, the key set grows by at most that key, every other key keeps its entry |
| `RegistrySpec.RegisterSize` | Assets/ServiceContainer.cs:16-22 | registering grows the table by one entry exactly when the key was not bound |
| `RegistrySpec.LastRegistrationWins` | Assets/ServiceContainer.cs:14-43 | a second registration of a key leaves no trace of the first |
| `RegistrySpec.RegistrationsOfDistinctKeysCommute` | Assets/ServiceContainer.cs:29-40 | registrations of different keys are independent of their order |
| `ServiceContainers.Binding.NewTransient` | Assets/ServiceContainer.cs:56-67 | a transient binding stores its recipe, caches nothing and runs nothing |
| `ServiceContainers.Binding.NewSingleton` | Assets/ServiceContainer.cs:80-88 | a singleton binding stores its recipe, starts with an empty cache and runs nothing |
| `ServiceContainers.Binding.IsSingleton` | Assets/ServiceContainer.cs:74-77 | a side-effect-free test of the constant tag set by the singleton constructor; any binding holding a cached instance is a singleton |
| `ServiceContainers.Binding.GetInstance` | Assets/ServiceContainer.cs:69-95 | the new cache, invocation count and returned value are exactly `Step` of the old ones; a transient binding stays cache-free |
| `ServiceContainers.ServiceContainer.constructor` | Assets/ServiceContainer.cs:9-12 | a new container has an empty table |
| `ServiceContainers.ServiceContainer.Remove` | Assets/ServiceContainer.cs:18 | drops the key's entry and nothing else |
| `ServiceContainers.ServiceContainer.Add` | Assets/ServiceContainer.cs:22 | adds an entry for an unbound key, nothing else changes |
| `ServiceContainers.ServiceContainer.Bind` | Assets/ServiceContainer.cs:14-25 | the table becomes `Register` of the old one with a fresh transient, cache-free binding of the given recipe; no recipe runs; other keys keep their binding objects; returns the same container |
| `ServiceContainers.ServiceContainer.Singleton` | Assets/ServiceContainer.cs:27-43 | the table becomes `Register` of the old one with a fresh singleton binding; lazy (the default): no recipe runs and the cache is empty; eager: the recipe runs exactly once and the binding caches its result; other keys keep their binding objects |
| `ServiceContainers.ServiceContainer.Get` | Assets/ServiceContainer.cs:45-48 | unbound key: `KeyNotFound` and nothing changes; bound key: returns what that binding's `GetInstance` returns, and only that binding's entry changes |
| `ServiceContainers.ServiceContainer.GetBindings` | Assets/ServiceContainer.cs:50-54 | the list is replaced by the bound keys, each exactly once, so its length is the table size |

## Left out

- The ad-hoc constructor-injection resolver and `Get(Type)`: used by `Assets/DITest.cs` but not defined in `Assets/ServiceContainer.cs`, so there is no code to model.
- `Assets/NotInstantiableException.cs` and `Assets/ParamNotInstantiableException.cs`: message-formatting exception classes that the container code never raises.
- `Assets/DITest.cs`: a demo driver that logs through Unity; only its counting sample classes are reflected, in `CountingYield`.
- Thread safety: the container is modelled as sequential code; concurrent first calls of a singleton are not modelled.
- The `as T` downcast in `Get<T>` and `Type.ToString()` in `GetBindings`: instances are opaque ids and keys are already strings.
- Recipes that call back into the container or have effects other than counting: a recipe's answer depends only on how often it has run.
- `Binding.Recipe` is a public mutable field in C#; nothing in the container reassigns it, so it is a constant here.
- Dictionary enumeration order: `GetBindings` is specified up to order (a multiset of keys).
- Exceptions thrown by a recipe: a recipe always returns (an instance or null).
