/**
  Value-level specification of the container's binding table: a map from a type key to the
  current binding, where registering a key removes any binding it had and adds the new one.
*/
module RegistrySpec {
  import opened Wrappers
  import opened Recipes
  import opened BindingSpec

  /** The identity of a bound type (`typeof(T)`), represented by its name. */
  type TypeKey = string

  /** What a table entry holds: the binding's lifecycle, its recipe and its cached instance. */
  datatype Entry = Entry(lifecycle: Lifecycle, recipe: Recipe, cache: Option<Instance>)

  /** Why a strict lookup fails: the dictionary indexer finds no binding for the key. */
  datatype Error = KeyNotFound(key: TypeKey)

  /** Remove-then-add of `Bind<T>` and `Singleton<T>`. */
  function Register(table: map<TypeKey, Entry>, key: TypeKey, e: Entry): (t: map<TypeKey, Entry>)
    ensures t.Keys == table.Keys + {key}
    ensures key in t && t[key] == e
    ensures forall k :: k in table && k != key ==> t[k] == table[k]
  {
    var removed := if key in table then table - {key} else table;
    removed[key := e]
  }

  /** Registering a key grows the table by one entry exactly when the key was new. */
  lemma RegisterSize(table: map<TypeKey, Entry>, key: TypeKey, e: Entry)
    ensures |Register(table, key, e)| == if key in table then |table| else |table| + 1
  {
  }

  /** The last registration wins: a second registration of a key leaves no trace of the first. */
  lemma LastRegistrationWins(table: map<TypeKey, Entry>, key: TypeKey, first: Entry, second: Entry)
    ensures Register(Register(table, key, first), key, second) == Register(table, key, second)
  {
  }

  /** Registrations of different keys do not interfere: their order does not matter. */
  lemma RegistrationsOfDistinctKeysCommute(table: map<TypeKey, Entry>, k1: TypeKey, e1: Entry, k2: TypeKey, e2: Entry)
    requires k1 != k2
    ensures Register(Register(table, k1, e1), k2, e2) == Register(Register(table, k2, e2), k1, e1)
  {
  }
}
