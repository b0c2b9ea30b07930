/** `createStore(factory)` of app/store.js: it runs `factory` and builds `stateView`,
    an object with one get/set accessor per key of `state`. Reading a key reads that
    cell's current value; assigning through a key writes the cell directly, so the
    view is writable. */
module StoreView {
  import opened Wrappers
  import opened GrammarStore

  /** A value read from or assigned through the view: the cells hold strings and
      booleans. */
  datatype Value = Str(s: string) | Bool(b: bool)

  /** `Object.keys(state)`: the keys of the `state` object of `factory`, in the
      order it lists them. */
  const StateKeys: seq<string> :=
    ["text", "checking", "correct", "results", "feedback", "feedbackOpen", "feedbackLoading"]

  /** The value the getter for `name` returns, None for a name that is not a key
      of `state`. The `correct` key reads the derived predicate. */
  function CellValue(w: Workflow, name: string): (r: Option<Value>)
    reads w
    ensures r.Some? <==> name in StateKeys
  {
    if name == "text" then Some(Str(w.text))
    else if name == "checking" then Some(Bool(w.checking))
    else if name == "correct" then Some(Bool(w.IsCorrect()))
    else if name == "results" then Some(Str(w.results))
    else if name == "feedback" then Some(Str(w.feedback))
    else if name == "feedbackOpen" then Some(Bool(w.feedbackOpen))
    else if name == "feedbackLoading" then Some(Bool(w.feedbackLoading))
    else None
  }

  /** The assignments through an accessor that the model covers: a value of the
      cell's own type, to one of the six stored cells. */
  predicate Assignable(name: string, v: Value)
  {
    if name == "text" || name == "results" || name == "feedback" then v.Str?
    else if name == "checking" || name == "feedbackOpen" || name == "feedbackLoading" then v.Bool?
    else false
  }

  /** The object `stateView`. `accessors` are the names given a get/set accessor,
      in the order they were defined; `props` are the plain properties that
      assignments to any other name create. */
  class StateView {
    const cells: Workflow
    var accessors: seq<string>
    var props: map<string, Value>

    /** `const stateView = {}` */
    constructor (cells: Workflow)
      ensures this.cells == cells && accessors == [] && props == map[]
    {
      this.cells := cells;
      accessors := [];
      props := map[];
    }

    /** `Object.defineProperty(stateView, name, { get, set })`. The accessor is not
        configurable, so it cannot be defined twice; it replaces a plain property of
        the same name. */
    method DefineAccessor(name: string)
      requires name !in accessors
      modifies this
      ensures accessors == old(accessors) + [name]
      ensures props == old(props) - {name}
    {
      accessors := accessors + [name];
      props := props - {name};
    }

    /** `stateView[name]`: the getter's cell value for an accessor, the assigned
        value for a plain property, None (`undefined`) for anything else. An
        accessor hides a plain property of the same name. */
    function Read(name: string): (r: Option<Value>)
      reads this, cells
      ensures r.None? <==> (name in accessors && name !in StateKeys) || (name !in accessors && name !in props)
      ensures name in accessors ==> r == CellValue(cells, name)
      ensures name !in accessors && name in props ==> r == Some(props[name])
    {
      if name in accessors then CellValue(cells, name)
      else if name in props then Some(props[name])
      else None
    }

    /** `stateView[name] = v`. Through an accessor it writes the cell, bypassing the
        store's methods; on any other name it creates or overwrites a plain property.
        Either way an immediate read gives `v` back, and no other key reads
        differently, except `correct`, which is derived from `text` and `results`. */
    method Write(name: string, v: Value)
      requires name in accessors ==> Assignable(name, v)
      modifies this, cells
      ensures Read(name) == Some(v)
      ensures forall n :: n != name && n != "correct" ==> Read(n) == old(Read(n))
      ensures "correct" in accessors ==> Read("correct") == Some(Bool(cells.IsCorrect()))
      ensures forall n :: n != name && n != "correct" ==> CellValue(cells, n) == old(CellValue(cells, n))
      ensures name in accessors ==> props == old(props)
      ensures name !in accessors ==> props == old(props)[name := v] && cells.Snapshot() == old(cells.Snapshot())
      ensures accessors == old(accessors)
      ensures cells.pendingChecks == old(cells.pendingChecks)
      ensures cells.pendingFeedback == old(cells.pendingFeedback)
    {
      if name in accessors {
        if name == "text" {
          cells.text := v.s;
        } else if name == "results" {
          cells.results := v.s;
        } else if name == "feedback" {
          cells.feedback := v.s;
        } else if name == "checking" {
          cells.checking := v.b;
        } else if name == "feedbackOpen" {
          cells.feedbackOpen := v.b;
        } else {
          cells.feedbackLoading := v.b;
        }
      } else {
        props := props[name := v];
      }
    }
  }

  /** The keys of `state` are pairwise distinct, so each gets one accessor. */
  lemma StateKeysDistinct()
    ensures forall i, j :: 0 <= i < j < |StateKeys| ==> StateKeys[i] != StateKeys[j]
  {
  }

  /** `createStore(factory)`: runs `factory`, then defines an accessor on a new,
      empty view for each key of `state`, in order. Returns the methods and the view. */
  method CreateStore() returns (methods: Workflow, state: StateView)
    ensures fresh(methods) && fresh(state) && state.cells == methods
    ensures methods.Snapshot() == InitialCells
    ensures methods.pendingChecks == 0 && methods.pendingFeedback == 0
    ensures state.accessors == StateKeys && state.props == map[]
  {
    methods := new Workflow();
    state := new StateView(methods);
    StateKeysDistinct();
    for i := 0 to |StateKeys|
      invariant state.accessors == StateKeys[..i]
      invariant state.props == map[]
      invariant methods.Snapshot() == InitialCells
      invariant methods.pendingChecks == 0 && methods.pendingFeedback == 0
    {
      state.DefineAccessor(StateKeys[i]);
    }
  }

  /** The view built by `createStore` has exactly the keys of `state`: every key
      reads as a value, every other name as `undefined`. */
  lemma ViewHasStateKeys(state: StateView)
    requires state.accessors == StateKeys && state.props == map[]
    ensures forall n :: state.Read(n).Some? <==> n in StateKeys
  {
  }

  /** Writing a key of the view and reading it back gives the value written; the
      other stored cells keep theirs. */
  method WriteThenRead(state: StateView, name: string, v: Value) returns (back: Option<Value>)
    requires state.accessors == StateKeys && Assignable(name, v)
    modifies state, state.cells
    ensures back == Some(v)
    ensures forall n :: n != name && n != "correct" ==> state.Read(n) == old(state.Read(n))
  {
    state.Write(name, v);
    back := state.Read(name);
  }
}
