/**
 * Variable scopes (src/eval/mod.rs): a store of bindings and an optional
 * enclosing scope. Lookup walks outward; writing only touches the innermost
 * store. A function call's scope encloses a copy of the caller's.
 */
module Scopes {
  import opened Common
  import opened Syntax
  import opened Values

  datatype Scope = Scope(store: map<string, Value>, outer: Option<Scope>)

  /** `Scope::new` (and `Scope::default`): no bindings, nothing enclosing. */
  function NewScope(): (s: Scope)
    ensures s.outer.None? && |s.store| == 0
  {
    Scope(map[], None)
  }

  /** The scope a call runs in: empty, enclosing the caller's scope. */
  function ChildOf(caller: Scope): (s: Scope)
    ensures s.outer == Some(caller) && |s.store| == 0
  {
    Scope(map[], Some(caller))
  }

  /** `get`: the innermost binding of the name. */
  function Get(s: Scope, key: Identifier): (r: Option<Value>)
    ensures key.value in s.store ==> r == Some(s.store[key.value])
    ensures key.value !in s.store && s.outer.None? ==> r.None?
    decreases s
  {
    if key.value in s.store then Some(s.store[key.value])
    else match s.outer
      case None => None
      case Some(o) => Get(o, key)
  }

  /** `set`: bind the name in the innermost store, replacing a binding there. */
  function Set(s: Scope, key: Identifier, v: Value): (r: Scope)
    ensures r.outer == s.outer
    ensures r.store.Keys == s.store.Keys + {key.value}
    ensures forall k :: k in s.store && k != key.value ==> r.store[k] == s.store[k]
  {
    s.(store := s.store[key.value := v])
  }

  /**
   * The bindings a scope makes visible, as one map: the enclosing scope's,
   * overridden by the innermost store.
   */
  function Visible(s: Scope): (m: map<string, Value>)
    ensures s.store.Keys <= m.Keys
    decreases s
  {
    var outer := match s.outer case None => map[] case Some(o) => Visible(o);
    outer + s.store
  }

  /** Looking a name up finds exactly its visible binding: walking outward is shadowing. */
  lemma {:induction false} GetIsVisible(s: Scope, key: Identifier)
    ensures Get(s, key) == if key.value in Visible(s) then Some(Visible(s)[key.value]) else None
    decreases s
  {
    match s.outer
    case None =>
    case Some(o) =>
      GetIsVisible(o, key);
  }

  /** Reading a name right after writing it gives the written value; every other name reads as before. */
  lemma GetAfterSet(s: Scope, key: Identifier, other: Identifier, v: Value)
    ensures Get(Set(s, key, v), key) == Some(v)
    ensures other.value != key.value ==> Get(Set(s, key, v), other) == Get(s, other)
  {
  }

  /** A fresh scope binds nothing. */
  lemma NewScopeEmpty(key: Identifier)
    ensures Get(NewScope(), key).None?
  {
  }

  /** A call's scope sees every binding of the caller's that it has not bound itself. */
  lemma {:induction false} ChildSeesCaller(caller: Scope, child: Scope, key: Identifier)
    requires child.outer == Some(caller)
    ensures key.value !in child.store ==> Get(child, key) == Get(caller, key)
    ensures Visible(child) == Visible(caller) + child.store
  {
  }
}
