/** What a task wrote is what it finds, on whatever thread it runs next (dcontext/src/store.rs:386-398). */
module OwnWrites {
  import opened Wrappers
  import opened Overlays
  import Scopes
  import opened Cells

  /**
   A value set is the value found: after an owner sets a key, and whatever others do on any threads
   until it runs again, be it on another thread, the cell it then finds has the store it wrote to, and a
   lookup of the key in it finds the value.
   */
  lemma OwnWriteSeen(w: World, e: Event, key: Key, value: Value, between: seq<Event>, th: ThreadId)
    requires WellPolled(w) && Enabled(w, e)
    requires e.action.Apply? && forall s :: e.action.f(s) == Scopes.Set(s, key, value)
    requires w.threads[e.thread].cell.Some?
    requires Legal(Next(w, e), between) && OnlyOthers(Next(w, e), between, OwnerOn(w, e.thread))
    requires th in Run(Next(w, e), between).threads
    requires OwnerOn(Run(Next(w, e), between), th) == OwnerOn(w, e.thread)
    ensures var was, found := w.threads[e.thread].cell.value, Run(Next(w, e), between).threads[th].cell;
            && found.Some? && found.value.id == was.id
            && found.value.state == Scopes.Set(was.state, key, value)
            && Scopes.Lookup(found.value.state, key) == Some(value)
  {
    var o, was := OwnerOn(w, e.thread), w.threads[e.thread].cell.value;
    StepOnStore(w, e);
    NextWellPolled(w, e);
    OthersChangeNothing(Next(w, e), between, o);
    CellIsOwn(Run(Next(w, e), between), th);
    assert Scopes.Visible(Scopes.Set(was.state, key, value))[0] == was.state.currentValues[key := value];
  }
}
