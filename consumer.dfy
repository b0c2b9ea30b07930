/** `useStore(store)` of app/store.js: each consumer of the store gets its methods
    and a `select` that creates an effect over the state view and records it; when
    the consumer is destroyed, every effect it recorded is disposed. */
module Consumer {
  import opened GrammarStore
  import opened StoreView

  /** An effect created by `select`: subscribed to the cells it reads until it is
      disposed. */
  class Effect {
    var disposed: bool

    constructor ()
      ensures !disposed
    {
      disposed := false;
    }

    /** `f.dispose()`: the effect stops re-running; disposing twice is harmless. */
    method Dispose()
      modifies this
      ensures disposed
    {
      disposed := true;
    }
  }

  /** What `useStore` returns, with the `effects` array it closes over. */
  class Binding {
    const methods: Workflow
    const state: StateView
    var effects: seq<Effect>

    /** `useStore(store)`: no effects yet. */
    constructor (methods: Workflow, state: StateView)
      ensures this.methods == methods && this.state == state && effects == []
    {
      this.methods := methods;
      this.state := state;
      effects := [];
    }

    /** `select(f)`: a new, live effect, appended to `effects` and returned. */
    method Select() returns (e: Effect)
      modifies this
      ensures fresh(e) && !e.disposed
      ensures effects == old(effects) + [e]
    {
      e := new Effect();
      effects := effects + [e];
    }

    /** The `onDestroy` callback: disposes every recorded effect, in order, and
      touches nothing else. */
    method Destroy()
      modifies set e | e in effects
      ensures forall e :: e in effects ==> e.disposed
    {
      for i := 0 to |effects|
        invariant forall j :: 0 <= j < i ==> effects[j].disposed
      {
        effects[i].Dispose();
      }
    }
  }
}
