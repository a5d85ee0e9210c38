/**
  The service container: a table from type keys to bindings, mutated in place by
  `Bind` and `Singleton`, read by `Get` and `GetBindings`.
*/
module ServiceContainers {
  import opened Wrappers
  import opened Recipes
  import opened BindingSpec
  import opened RegistrySpec

  /**
    `Binding` and `SingletonBinding` as one class with a lifecycle tag: the transient
    constructor builds a `Binding`, the singleton constructor a `SingletonBinding`.
  */
  class Binding {
    const lifecycle: Lifecycle
    const recipe: Recipe
    /** The cached instance of a singleton binding; `None` until the recipe first yields one. */
    var instance: Option<Instance>

    /** A transient binding never caches. */
    ghost predicate Valid()
      reads this
    {
      lifecycle == Transient ==> instance == None
    }

    /** What `GetInstance` depends on and changes, as a value. */
    ghost function State(): Slot
      reads this, recipe
    {
      Slot(lifecycle, instance, recipe.Calls)
    }

    /** This binding as a table entry. */
    ghost function AsEntry(): Entry
      reads this
    {
      Entry(lifecycle, recipe, instance)
    }

    /** `new Binding<T>(recipe)`: stores the recipe and runs nothing. */
    constructor NewTransient(recipe: Recipe)
      ensures Valid()
      ensures lifecycle == Transient && this.recipe == recipe && instance == None
    {
      lifecycle := Transient;
      this.recipe := recipe;
      instance := None;
    }

    /** `new SingletonBinding<T>(recipe)`: starts with no cached instance and runs nothing. */
    constructor NewSingleton(recipe: Recipe)
      ensures Valid()
      ensures lifecycle == Singleton && this.recipe == recipe && instance == None
    {
      lifecycle := Singleton;
      this.recipe := recipe;
      instance := None;
    }

    /**
      `this is SingletonBinding`: true exactly for bindings built by `NewSingleton`, whose
      tag is constant. Only such a binding ever holds a cached instance.
    */
    predicate IsSingleton()
      reads this
      ensures Valid() && instance.Some? ==> IsSingleton()
    {
      lifecycle.Singleton?
    }

    /**
      Produces an instance: a transient binding runs its recipe every time; a singleton
      binding runs it only while its cache is empty and caches what it yields.
    */
    method GetInstance() returns (r: Option<Instance>)
      requires Valid()
      modifies this, recipe
      ensures Valid()
      ensures (State(), r) == Step(old(State()), recipe.Outcome)
    {
      if lifecycle == Transient {
        r := recipe.Invoke();
      } else {
        if instance == None {
          instance := recipe.Invoke();
        }
        r := instance;
      }
    }
  }

  /** The caller's list that `GetBindings` refills. */
  class KeyList {
    var Items: seq<TypeKey>

    constructor ()
      ensures Items == []
    {
      Items := [];
    }
  }

  class ServiceContainer {
    var bindings: map<TypeKey, Binding>

    /** Every binding is well formed, and no binding object is registered under two keys. */
    ghost predicate Valid()
      reads this, bindings.Values
    {
      && (forall k :: k in bindings ==> bindings[k].Valid())
      && (forall k, k' :: k in bindings && k' in bindings && k != k' ==> bindings[k] != bindings[k'])
    }

    /** The table as values. */
    ghost function Table(): map<TypeKey, Entry>
      reads this, bindings.Values
    {
      map k | k in bindings :: bindings[k].AsEntry()
    }

    constructor ()
      ensures Valid() && Table() == map[]
    {
      bindings := map[];
    }

    /** `Dictionary.Remove`: drops the key's entry. */
    method Remove(key: TypeKey)
      requires Valid()
      modifies this
      ensures Valid()
      ensures bindings == old(bindings) - {key}
      ensures Table() == old(Table()) - {key}
    {
      bindings := bindings - {key};
    }

    /** `Dictionary.Add`: adds an entry for a key that has none. */
    method Add(key: TypeKey, b: Binding)
      requires Valid() && b.Valid()
      requires key !in bindings && b !in bindings.Values
      modifies this
      ensures Valid()
      ensures bindings == old(bindings)[key := b]
      ensures Table() == old(Table())[key := b.AsEntry()]
    {
      bindings := bindings[key := b];
    }

    /**
      `Bind<T>(recipe)`: registers a fresh transient binding for `key`, replacing any binding
      the key had. No recipe runs, and every other key keeps its binding object.
    */
    method Bind(key: TypeKey, recipe: Recipe) returns (self: ServiceContainer)
      requires Valid()
      modifies this
      ensures Valid() && self == this
      ensures Table() == Register(old(Table()), key, Entry(Transient, recipe, None))
      ensures key in bindings && fresh(bindings[key])
      ensures forall k :: k in old(bindings) && k != key ==> k in bindings && bindings[k] == old(bindings[k])
      ensures recipe.Calls == old(recipe.Calls)
    {
      if key in bindings {
        Remove(key);
      }
      var b := new Binding.NewTransient(recipe);
      Add(key, b);
      self := this;
    }

    /**
      `Singleton<T>(recipe, lazy)`: registers a fresh singleton binding for `key`, replacing
      any binding the key had. A lazy registration runs nothing; an eager one runs the
      recipe exactly once and the new binding caches what it yields.
    */
    method Singleton(key: TypeKey, recipe: Recipe, lazy: bool := true) returns (self: ServiceContainer)
      requires Valid()
      modifies this, recipe
      ensures Valid() && self == this
      ensures key in bindings && fresh(bindings[key])
      ensures Table() == Register(old(Table()), key, Entry(BindingSpec.Singleton, recipe, bindings[key].instance))
      ensures forall k :: k in old(bindings) && k != key ==> k in bindings && bindings[k] == old(bindings[k])
      ensures lazy ==> recipe.Calls == old(recipe.Calls) && bindings[key].instance == None
      ensures !lazy ==> recipe.Calls == old(recipe.Calls) + 1 && bindings[key].instance == recipe.Outcome(old(recipe.Calls))
    {
      if key in bindings {
        Remove(key);
      }
      var b := new Binding.NewSingleton(recipe);
      if !lazy {
        var _ := b.GetInstance();
      }
      Add(key, b);
      self := this;
    }

    /**
      `Get<T>()`: returns what the key's binding produces, changing that binding's cache
      and nothing else in the table; a key with no binding fails as the indexer does.
    */
    method Get(key: TypeKey) returns (r: Result<Option<Instance>, Error>)
      requires Valid()
      modifies if key in bindings then {bindings[key] as object, bindings[key].recipe} else {}
      ensures Valid() && bindings == old(bindings)
      ensures key !in bindings ==> r == Failure(KeyNotFound(key)) && Table() == old(Table())
      ensures key in bindings ==>
        && r.Success?
        && (bindings[key].State(), r.value) == Step(old(bindings[key].State()), bindings[key].recipe.Outcome)
        && Table() == old(Table())[key := bindings[key].AsEntry()]
    {
      if key !in bindings {
        return Failure(KeyNotFound(key));
      }
      var x := bindings[key].GetInstance();
      r := Success(x);
    }

    /** `GetBindings(ref list)`: clears the list and fills it with every bound key, once each. */
    method GetBindings(list: KeyList)
      modifies list
      ensures multiset(list.Items) == multiset(bindings.Keys)
      ensures |list.Items| == |bindings|
    {
      list.Items := [];
      var rest := bindings.Keys;
      while rest != {}
        invariant rest <= bindings.Keys
        invariant multiset(list.Items) + multiset(rest) == multiset(bindings.Keys)
        decreases rest
      {
        var k :| k in rest;
        list.Items := list.Items + [k];
        rest := rest - {k};
      }
    }
  }
}
