/** The inventory search state and its `updateFilter`: a falsy value or 'all' clears the
    key, any other value is stored under it, and the other keys are kept. */
module SearchState {

  /** A value passed to `updateFilter`. */
  datatype SearchValue = Undefined | Null | Bool(b: bool) | Num(n: int) | Str(s: string)

  /** JavaScript truthiness for these values. */
  predicate Falsy(v: SearchValue)
  {
    v.Undefined? || v.Null? || v == Bool(false) || v == Num(0) || v == Str("")
  }

  /** Whether an update removes the key rather than storing the value. */
  predicate Clears(v: SearchValue)
  {
    Falsy(v) || v == Str("all")
  }

  type Search = map<string, SearchValue>

  /** The search state after `updateFilter(name, value)`; a key set to `undefined` is a
      key the state no longer has. */
  function UpdateFilter(state: Search, name: string, value: SearchValue): (r: Search)
    ensures Clears(value) ==> name !in r
    ensures !Clears(value) ==> name in r && r[name] == value
    ensures forall k :: k != name ==> (k in r <==> k in state)
    ensures forall k :: k != name && k in r ==> r[k] == state[k]
  {
    if Clears(value) then state - {name} else state[name := value]
  }

  /** Setting a key twice to the same value is the same as setting it once. */
  lemma UpdateIdempotent(state: Search, name: string, value: SearchValue)
    ensures UpdateFilter(UpdateFilter(state, name, value), name, value)
         == UpdateFilter(state, name, value)
  {
  }

  /** 'all', '' and the other falsy values all leave the same state. */
  lemma AllSameAsEmpty(state: Search, name: string, value: SearchValue)
    requires Falsy(value)
    ensures UpdateFilter(state, name, Str("all")) == UpdateFilter(state, name, Str(""))
    ensures UpdateFilter(state, name, value) == UpdateFilter(state, name, Str(""))
  {
  }

  /** An update depends only on the key's new value: whatever the key held before, the
      results agree once the rest of the state agrees. */
  lemma UpdateOverwrites(state: Search, name: string, v1: SearchValue, v2: SearchValue)
    ensures UpdateFilter(UpdateFilter(state, name, v1), name, v2) == UpdateFilter(state, name, v2)
  {
  }
}
