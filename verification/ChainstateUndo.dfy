/** Rewinding what was added: exactly when it restores the chainstate, and exactly when no
    assertion fails on the way.  Everything is decided output by output. */
module ChainstateUndo {
  import opened Options
  import opened ChainstateModel

  // ---------------------------------------------------------------- one output

  /** What the chainstate knows of one output. */
  datatype Cell = Cell(unspent: Option<Record>, spent: Option<Record>) {

    function Do(e: Effect): Cell {
      match e
      case Make(_, r) => if unspent.Some? then this else this.(unspent := Some(r))
      case Use(_) => if unspent.None? then this else Cell(None, if spent.Some? then spent else unspent)
    }

    function Undo(e: Effect): Cell {
      match e
      case Make(_, _) => this.(unspent := None)
      case Use(_) => if spent.None? then this else Cell(if unspent.Some? then unspent else spent, None)
    }
  }

  function Lookup(m: map<Key, Record>, key: Key): Option<Record> {
    if key in m then Some(m[key]) else None
  }

  function At(s: Chainstate, key: Key): Cell {
    Cell(Lookup(s.storage, key), Lookup(s.spent, key))
  }

  function CellAfter(c: Cell, es: seq<Effect>, key: Key): Cell {
    if es == [] then c
    else
      var d, e := CellAfter(c, es[..|es| - 1], key), es[|es| - 1];
      if e.key == key then d.Do(e) else d
  }

  function CellBack(c: Cell, es: seq<Effect>, key: Key): Cell {
    if es == [] then c
    else
      var d, e := CellBack(c, es[..|es| - 1], key), es[|es| - 1];
      if e.key == key then d.Undo(e) else d
  }

  lemma {:induction false} CellsAfter(s: Chainstate, es: seq<Effect>, key: Key)
    ensures At(DoAll(s, es), key) == CellAfter(At(s, key), es, key)
  {
    if es != [] {
      CellsAfter(s, es[..|es| - 1], key);
    }
  }

  lemma {:induction false} CellsBack(s: Chainstate, es: seq<Effect>, key: Key)
    ensures At(UndoAll(s, es), key) == CellBack(At(s, key), es, key)
  {
    if es != [] {
      CellsBack(s, es[..|es| - 1], key);
    }
  }

  lemma SameCells(s: Chainstate, t: Chainstate)
    requires forall key :: At(s, key) == At(t, key)
    ensures s == t
  {
    forall key
      ensures Lookup(s.storage, key) == Lookup(t.storage, key) && Lookup(s.spent, key) == Lookup(t.spent, key)
    {
      assert At(s, key) == At(t, key);
    }
    SameMaps(s.storage, t.storage);
    SameMaps(s.spent, t.spent);
  }

  lemma SameMaps(m: map<Key, Record>, n: map<Key, Record>)
    requires forall key :: Lookup(m, key) == Lookup(n, key)
    ensures m == n
  {
    assert forall key :: key in m <==> Lookup(m, key).Some?;
    assert forall key :: key in n <==> Lookup(n, key).Some?;
    assert forall key | key in m :: m[key] == Lookup(m, key).value;
    assert forall key | key in n :: n[key] == Lookup(n, key).value;
  }

  // ---------------------------------------------------------------- the order of effects

  predicate Uses(es: seq<Effect>, key: Key) {
    exists i :: 0 <= i < |es| && es[i] == Use(key)
  }

  predicate Makes(es: seq<Effect>, key: Key) {
    exists i :: 0 <= i < |es| && es[i].Make? && es[i].key == key
  }

  /** The output is made, perhaps again, after it was used. */
  predicate MadeAfterUse(es: seq<Effect>, key: Key) {
    exists i, j :: 0 <= i < j < |es| && es[i] == Use(key) && es[j].Make? && es[j].key == key
  }

  lemma LastEffect(es: seq<Effect>, key: Key)
    requires es != []
    ensures var before, e := es[..|es| - 1], es[|es| - 1];
            && (Uses(es, key) <==> Uses(before, key) || e == Use(key))
            && (Makes(es, key) <==> Makes(before, key) || (e.Make? && e.key == key))
            && (MadeAfterUse(es, key) <==> MadeAfterUse(before, key) || (Uses(before, key) && e.Make? && e.key == key))
  {
    var before, n := es[..|es| - 1], |es| - 1;
    assert forall i :: 0 <= i < n ==> es[i] == before[i];
  }

  lemma MadeAfterUseIsBoth(es: seq<Effect>, key: Key)
    ensures MadeAfterUse(es, key) ==> Uses(es, key) && Makes(es, key)
  {
  }

  /** Every use of the output finds it. */
  predicate FoundAt(c: Cell, es: seq<Effect>, key: Key) {
    es == [] ||
    (var before := es[..|es| - 1];
     FoundAt(c, before, key) && (es[|es| - 1] == Use(key) ==> CellAfter(c, before, key).unspent.Some?))
  }

  lemma {:induction false} FoundEverywhere(s: Chainstate, es: seq<Effect>, key: Key)
    requires Found(s, es)
    ensures FoundAt(At(s, key), es, key)
  {
    if es != [] {
      FoundEverywhere(s, es[..|es| - 1], key);
      CellsAfter(s, es[..|es| - 1], key);
    }
  }

  /** An output after effects: the first use saves its record, unless one is saved already. */
  lemma {:induction false} AfterEffects(c: Cell, es: seq<Effect>, key: Key)
    requires FoundAt(c, es, key)
    ensures var d := CellAfter(c, es, key);
            && (!Uses(es, key) ==> d.spent == c.spent && (c.unspent.Some? ==> d.unspent == c.unspent))
            && (!Uses(es, key) && !Makes(es, key) ==> d == c)
            && (Uses(es, key) ==> d.spent.Some?)
            && (Uses(es, key) && c == Cell(c.unspent, None) && c.unspent.Some? ==> d.spent == c.unspent)
            && (Uses(es, key) && !Makes(es, key) ==> d.unspent.None?)
  {
    hide Uses, Makes, MadeAfterUse;
    if es != [] {
      AfterEffects(c, es[..|es| - 1], key);
      LastEffect(es, key);
    } else {
      NothingUsedOrMade(key);
    }
  }

  lemma NothingUsedOrMade(key: Key)
    ensures !Uses([], key) && !Makes([], key) && !MadeAfterUse([], key)
  {
  }

  /** An output after effects are undone: the first use gives back the saved record, and
      whatever makes the output after that takes it away for good. */
  lemma {:induction false} BackEffects(d: Cell, es: seq<Effect>, key: Key)
    ensures var b := CellBack(d, es, key);
            && (!Uses(es, key) ==> b == if Makes(es, key) then Cell(None, d.spent) else d)
            && (Uses(es, key) && MadeAfterUse(es, key) ==> b == Cell(None, None))
            && (Uses(es, key) && !MadeAfterUse(es, key) ==>
                  b == Cell(if !Makes(es, key) && d.unspent.Some? then d.unspent else d.spent, None))
  {
    hide Uses, Makes, MadeAfterUse;
    if es != [] {
      BackEffects(d, es[..|es| - 1], key);
      LastEffect(es, key);
      MadeAfterUseIsBoth(es[..|es| - 1], key);
    } else {
      NothingUsedOrMade(key);
    }
  }

  // ---------------------------------------------------------------- restoring

  /** What the effects, undone in the order `back`, must satisfy for one output.  Of an output
      that they use no record may have been saved before, and it must have been unspent before
      exactly if it is not made after its use; any other output that they make must be new. */
  predicate RestoredAt(s: Chainstate, back: seq<Effect>, key: Key) {
    if Uses(back, key) then key !in s.spent && (key in s.storage <==> !MadeAfterUse(back, key))
    else Makes(back, key) ==> key !in s.storage
  }

  predicate Undoable(s: Chainstate, back: seq<Effect>) {
    forall i :: 0 <= i < |back| ==> RestoredAt(s, back, back[i].key)
  }

  /** No output is used twice. */
  predicate UsesOnce(es: seq<Effect>) {
    forall i, j :: 0 <= i < j < |es| && es[i].Use? && es[j].Use? ==> es[i].key != es[j].key
  }

  /** The effects are those of es, in any order. */
  ghost predicate SameEffects(es: seq<Effect>, back: seq<Effect>) {
    forall e :: e in es <==> e in back
  }

  lemma SameUsesAndMakes(es: seq<Effect>, back: seq<Effect>, key: Key)
    requires SameEffects(es, back)
    ensures Uses(es, key) <==> Uses(back, key)
    ensures Makes(es, key) <==> Makes(back, key)
  {
    assert Uses(es, key) <==> Use(key) in es;
    assert Uses(back, key) <==> Use(key) in back;
    if Makes(es, key) {
      var i :| 0 <= i < |es| && es[i].Make? && es[i].key == key;
      assert es[i] in back;
    }
    if Makes(back, key) {
      var i :| 0 <= i < |back| && back[i].Make? && back[i].key == key;
      assert back[i] in es;
    }
  }

  lemma RestoredAtIff(s: Chainstate, es: seq<Effect>, back: seq<Effect>, key: Key)
    requires Found(s, es) && SameEffects(es, back)
    ensures At(UndoAll(DoAll(s, es), back), key) == At(s, key) <==> RestoredAt(s, back, key)
  {
    hide Uses, Makes, MadeAfterUse, SameEffects, CellAfter, CellBack, FoundAt;
    FoundEverywhere(s, es, key);
    CellsAfter(s, es, key);
    CellsBack(DoAll(s, es), back, key);
    SameUsesAndMakes(es, back, key);
    AfterEffects(At(s, key), es, key);
    BackEffects(At(DoAll(s, es), key), back, key);
    MadeAfterUseIsBoth(back, key);
  }

  /** Undoing effects in any order brings the chainstate back exactly if they are Undoable
      in that order. */
  lemma UndoRestoresIff(s: Chainstate, es: seq<Effect>, back: seq<Effect>)
    requires Found(s, es) && SameEffects(es, back)
    ensures UndoAll(DoAll(s, es), back) == s <==> Undoable(s, back)
  {
    hide Uses, Makes, MadeAfterUse, SameEffects, RestoredAt, At;
    var t := UndoAll(DoAll(s, es), back);
    forall key
      ensures At(t, key) == At(s, key) <==> RestoredAt(s, back, key)
    {
      RestoredAtIff(s, es, back, key);
    }
    if Undoable(s, back) {
      forall key
        ensures At(t, key) == At(s, key)
      {
        UntouchedIsRestored(s, back, key);
      }
      SameCells(t, s);
    }
  }

  lemma UntouchedIsRestored(s: Chainstate, back: seq<Effect>, key: Key)
    requires Undoable(s, back)
    ensures RestoredAt(s, back, key)
  {
    if Uses(back, key) {
      var i :| 0 <= i < |back| && back[i] == Use(key);
      assert RestoredAt(s, back, back[i].key);
    } else if Makes(back, key) {
      var i :| 0 <= i < |back| && back[i].Make? && back[i].key == key;
      assert RestoredAt(s, back, back[i].key);
    }
  }

  /** Undoing asserts that every record asked for was saved.  That is so exactly if no output
      is used twice. */
  lemma UndoAssertsIff(s: Chainstate, es: seq<Effect>, back: seq<Effect>)
    requires Found(s, es) && SameEffects(es, back)
    ensures Saved(DoAll(s, es), back) <==> UsesOnce(back)
  {
    forall i | 0 <= i < |back| && back[i].Use?
      ensures back[i].key in DoAll(s, es).spent
    {
      var key := back[i].key;
      assert back[i] == Use(key) && back[i] in back && back[i] in es;
      FoundEverywhere(s, es, key);
      AfterEffects(At(s, key), es, key);
      CellsAfter(s, es, key);
    }
    SavedIff(DoAll(s, es), back);
  }

  lemma {:induction false} SavedIff(t: Chainstate, back: seq<Effect>)
    requires forall i :: 0 <= i < |back| && back[i].Use? ==> back[i].key in t.spent
    ensures Saved(t, back) <==> UsesOnce(back)
  {
    if back != [] {
      var before, e, n := back[..|back| - 1], back[|back| - 1], |back| - 1;
      assert forall i :: 0 <= i < n ==> before[i] == back[i];
      SavedIff(t, before);
      if e.Use? {
        CellsBack(t, before, e.key);
        BackEffects(At(t, e.key), before, e.key);
        assert e.key in UndoAll(t, before).spent <==> !Uses(before, e.key);
        assert UsesOnce(back) ==> UsesOnce(before) && !Uses(before, e.key);
        assert UsesOnce(before) && !Uses(before, e.key) ==> UsesOnce(back);
      }
    }
  }
}
