/**
 * The dashboard's collection modal: it shows the cards of one collection,
 * reveals answers on click, and in its selection modes moves the chosen
 * cards to another (possibly new) collection or deletes them.
 *
 * Each handler is specified by a pure effect on `ModalState` and the store;
 * the class runs the handler step by step and is proved to produce that
 * effect.
 */
module DashboardModal {
  import opened Seqs
  import opened Firestore

  datatype Mode = View | Select | Move | Delete

  /** A card as the modal holds it. */
  datatype ShownCard = ShownCard(id: string, question: string, answer: string, picture: string)

  /** A collection as the modal holds it. */
  datatype SetView = SetView(id: string, name: string, cards: seq<string>)

  datatype Button = Close | StartMove | StartDelete | Cancel | ConfirmSelection | Back | SubmitMove | SubmitDelete

  /**
   * The local state. The two JavaScript `Set`s (revealed and selected ids)
   * are insertion-ordered lists without repeats; `closeRequested` records
   * that `onClose` was called.
   */
  datatype ModalState = ModalState(
    flashcards: seq<ShownCard>,
    revealed: seq<string>,
    collections: seq<SetView>,
    mode: Mode,
    selected: seq<string>,
    selectedCollection: string,
    newCollectionName: string,
    closeRequested: bool)

  /** A card document as the modal shows it. */
  function Shown(entry: (string, CardDoc)): ShownCard {
    ShownCard(entry.0, entry.1.question, entry.1.answer, entry.1.picture)
  }

  /** Every card document of the snapshot, shown, in snapshot order. */
  function ShownAll(snapshot: seq<(string, CardDoc)>): seq<ShownCard> {
    seq(|snapshot|, i requires 0 <= i < |snapshot| => Shown(snapshot[i]))
  }

  /**
   * The cards the modal loads: the card documents the collection lists, in
   * snapshot order. Each loaded card is a listed document of the snapshot,
   * every listed document is loaded, and the order is the snapshot's.
   */
  function FetchedCards(snapshot: seq<(string, CardDoc)>, listed: seq<string>): (r: seq<ShownCard>)
    ensures |r| <= |snapshot|
    ensures forall c :: c in r ==> c.id in listed && c in ShownAll(snapshot)
    ensures forall i :: 0 <= i < |snapshot| && snapshot[i].0 in listed ==> Shown(snapshot[i]) in r
    ensures IsSubsequence(r, ShownAll(snapshot))
  {
    if snapshot == [] then []
    else
      var rest := FetchedCards(snapshot[1..], listed);
      assert ShownAll(snapshot)[1..] == ShownAll(snapshot[1..]);
      assert ShownAll(snapshot)[0] == Shown(snapshot[0]);
      if snapshot[0].0 in listed then [Shown(snapshot[0])] + rest else rest
  }

  /** The collections the modal loads, one entry per document, in snapshot order. */
  function FetchedCollections(snapshot: seq<(string, CollectionDoc)>): seq<SetView> {
    seq(|snapshot|, i requires 0 <= i < |snapshot| =>
      SetView(snapshot[i].0, snapshot[i].1.collectionName, snapshot[i].1.cards))
  }

  /** The state right after loading: view mode, nothing revealed or selected. */
  function Initial(flashcards: seq<ShownCard>, collections: seq<SetView>): ModalState {
    ModalState(flashcards, [], collections, View, [], "", "", false)
  }

  /** The move targets offered: every loaded collection except the one shown. */
  function TargetChoices(collections: seq<SetView>, sourceId: string): (r: seq<SetView>)
    ensures forall c :: c in r <==> c in collections && c.id != sourceId
    ensures IsSubsequence(r, collections)
  {
    if collections == [] then []
    else
      var rest := TargetChoices(collections[1..], sourceId);
      assert collections == [collections[0]] + collections[1..];
      if collections[0].id != sourceId then [collections[0]] + rest else rest
  }

  /** The cards still shown once the selected ones are gone. */
  function WithoutSelected(cards: seq<ShownCard>, selected: seq<string>): (r: seq<ShownCard>)
    ensures forall c :: c in r <==> c in cards && c.id !in selected
    ensures IsSubsequence(r, cards)
  {
    if cards == [] then []
    else
      var rest := WithoutSelected(cards[1..], selected);
      assert cards == [cards[0]] + cards[1..];
      if cards[0].id in selected then rest else [cards[0]] + rest
  }

  /** The local list after a move into an existing collection: the ids are appended as they are. */
  function MirrorUnion(collections: seq<SetView>, target: string, ids: seq<string>): (r: seq<SetView>)
    ensures |r| == |collections|
    ensures forall i :: 0 <= i < |r| ==>
      r[i] == (if collections[i].id == target then collections[i].(cards := collections[i].cards + ids) else collections[i])
  {
    seq(|collections|, i requires 0 <= i < |collections| =>
      if collections[i].id == target then collections[i].(cards := collections[i].cards + ids) else collections[i])
  }

  /**
   * The buttons shown in each mode (the move button sits in the body of the
   * move mode): Close, Move Cards and Delete Cards only in view mode, Cancel
   * in both selection modes, and each mode's own forward or back button.
   */
  function Buttons(mode: Mode): (r: seq<Button>)
    ensures Close in r <==> mode == View
    ensures StartMove in r <==> mode == View
    ensures StartDelete in r <==> mode == View
    ensures Cancel in r <==> mode == Select || mode == Delete
    ensures ConfirmSelection in r <==> mode == Select
    ensures Back in r <==> mode == Move
    ensures SubmitMove in r <==> mode == Move
    ensures SubmitDelete in r <==> mode == Delete
  {
    match mode
    case View => [Close, StartMove, StartDelete]
    case Select => [Cancel, ConfirmSelection]
    case Move => [Back, SubmitMove]
    case Delete => [Cancel, SubmitDelete]
  }

  /** A button is disabled only for want of a selection or, for the move, of a target. */
  predicate Enabled(s: ModalState, b: Button) {
    match b
    case ConfirmSelection => |s.selected| > 0
    case SubmitDelete => |s.selected| > 0
    case SubmitMove => (s.selectedCollection != "" || s.newCollectionName != "") && |s.selected| > 0
    case _ => true
  }

  predicate Available(s: ModalState, b: Button) {
    b in Buttons(s.mode) && Enabled(s, b)
  }

  /**
   * Exactly the buttons that act on a selection are disabled while it is
   * empty, and the move button also while no target is chosen or named.
   */
  lemma DisabledButtons(s: ModalState, b: Button)
    ensures !Enabled(s, b) <==>
      || ((b == ConfirmSelection || b == SubmitDelete || b == SubmitMove) && s.selected == [])
      || (b == SubmitMove && s.selectedCollection == "" && s.newCollectionName == "")
  {
  }

  /** A click on a card: toggles its selection in the selection modes, else its answer. */
  function ClickCard(s: ModalState, id: string): (r: ModalState)
    ensures s.mode == Select || s.mode == Delete ==> r == s.(selected := Toggle(s.selected, id))
    ensures s.mode == View || s.mode == Move ==> r == s.(revealed := Toggle(s.revealed, id))
  {
    if s.mode == Select || s.mode == Delete then s.(selected := Toggle(s.selected, id))
    else s.(revealed := Toggle(s.revealed, id))
  }

  datatype MoveOutcome = MoveSkipped | TargetMissing | SourceMissing | Moved

  datatype MoveEffect = MoveEffect(outcome: MoveOutcome, state: ModalState, collections: map<string, CollectionDoc>)

  /**
   * `moveCards`: nothing without a target; a new name wins over a chosen
   * collection and creates it holding exactly the selection; otherwise the
   * selection is unioned into the chosen collection. The local list is
   * updated next, then the selection is removed from the shown collection,
   * and only when that succeeds is the modal reset and closed.
   */
  function MoveCardsEffect(s: ModalState, sourceId: string, cols: map<string, CollectionDoc>, freshId: string): MoveEffect {
    if s.selectedCollection == "" && s.newCollectionName == "" then MoveEffect(MoveSkipped, s, cols)
    else if s.newCollectionName == "" && s.selectedCollection !in cols then MoveEffect(TargetMissing, s, cols)
    else
      var added :=
        if s.newCollectionName != "" then cols[freshId := CollectionDoc(s.newCollectionName, s.selected)]
        else UnionInto(cols, s.selectedCollection, s.selected);
      var mirrored :=
        if s.newCollectionName != "" then s.(collections := s.collections + [SetView(freshId, s.newCollectionName, s.selected)])
        else s.(collections := MirrorUnion(s.collections, s.selectedCollection, s.selected));
      if sourceId !in added then MoveEffect(SourceMissing, mirrored, added)
      else
        MoveEffect(Moved,
          mirrored.(flashcards := WithoutSelected(s.flashcards, s.selected), selected := [], mode := View,
                    newCollectionName := "", selectedCollection := "", closeRequested := true),
          RemoveFrom(added, sourceId, s.selected))
  }

  datatype DeleteOutcome = DeleteFailed | Deleted

  datatype DeleteEffect = DeleteEffect(outcome: DeleteOutcome, state: ModalState, collections: map<string, CollectionDoc>, cards: map<string, CardDoc>)

  /**
   * `deleteCards`: the selection is removed from the shown collection, then
   * its card documents are deleted in one batch, then the modal is reset
   * and closed. A missing collection stops it before anything is written.
   */
  function DeleteCardsEffect(s: ModalState, sourceId: string, cols: map<string, CollectionDoc>, cards: map<string, CardDoc>): DeleteEffect {
    if sourceId !in cols then DeleteEffect(DeleteFailed, s, cols, cards)
    else
      DeleteEffect(Deleted,
        s.(flashcards := WithoutSelected(s.flashcards, s.selected), selected := [], mode := View, closeRequested := true),
        RemoveFrom(cols, sourceId, s.selected),
        cards - (set x | x in s.selected))
  }

  datatype Effect = Effect(state: ModalState, collections: map<string, CollectionDoc>, cards: map<string, CardDoc>)

  /** A press on a button: ignored unless shown and enabled. */
  function PressEffect(s: ModalState, b: Button, sourceId: string, cols: map<string, CollectionDoc>, cards: map<string, CardDoc>, freshId: string): Effect {
    if !Available(s, b) then Effect(s, cols, cards)
    else
      match b
      case Close => Effect(s.(closeRequested := true), cols, cards)
      case StartMove => Effect(s.(mode := Select), cols, cards)
      case StartDelete => Effect(s.(mode := Delete), cols, cards)
      case Cancel => Effect(s.(mode := View, selected := []), cols, cards)
      case ConfirmSelection => Effect(s.(mode := Move), cols, cards)
      case Back => Effect(s.(mode := Select), cols, cards)
      case SubmitMove =>
        var e := MoveCardsEffect(s, sourceId, cols, freshId);
        Effect(e.state, e.collections, cards)
      case SubmitDelete =>
        var e := DeleteCardsEffect(s, sourceId, cols, cards);
        Effect(e.state, e.collections, e.cards)
  }

  /**
   * What the modal keeps true: its id sets have no repeats, nothing is
   * selected in view mode, and the move mode always has a selection.
   */
  predicate Coherent(s: ModalState) {
    && Distinct(s.revealed)
    && Distinct(s.selected)
    && (s.mode == View ==> s.selected == [])
    && (s.mode == Move ==> s.selected != [])
  }

  lemma InitialCoherent(flashcards: seq<ShownCard>, collections: seq<SetView>)
    ensures Coherent(Initial(flashcards, collections))
  {
  }

  lemma ClickPreservesCoherent(s: ModalState, id: string)
    requires Coherent(s)
    ensures Coherent(ClickCard(s, id))
  {
  }

  lemma PressPreservesCoherent(s: ModalState, b: Button, sourceId: string, cols: map<string, CollectionDoc>, cards: map<string, CardDoc>, freshId: string)
    requires Coherent(s)
    ensures Coherent(PressEffect(s, b, sourceId, cols, cards, freshId).state)
  {
    if Available(s, b) && b == SubmitMove {
      var e := MoveCardsEffect(s, sourceId, cols, freshId);
      assert e.state.revealed == s.revealed && e.state.mode in {s.mode, View};
    }
  }

  /** The enabled move button never meets the early return, and the modes follow the buttons. */
  lemma ModeMachine(s: ModalState, sourceId: string, cols: map<string, CollectionDoc>, cards: map<string, CardDoc>, freshId: string)
    ensures Available(s, SubmitMove) ==> MoveCardsEffect(s, sourceId, cols, freshId).outcome != MoveSkipped
    ensures Available(s, StartMove) ==> PressEffect(s, StartMove, sourceId, cols, cards, freshId).state.mode == Select
    ensures Available(s, ConfirmSelection) ==> s.mode == Select && s.selected != []
    ensures Available(s, SubmitDelete) ==> s.mode == Delete && s.selected != []
    ensures s.mode == Move ==> !Available(s, SubmitDelete) && !Available(s, StartMove)
    ensures Available(s, StartDelete) ==> PressEffect(s, StartDelete, sourceId, cols, cards, freshId) == Effect(s.(mode := Delete), cols, cards)
    ensures Available(s, Cancel) ==> PressEffect(s, Cancel, sourceId, cols, cards, freshId) == Effect(s.(mode := View, selected := []), cols, cards)
    ensures Available(s, ConfirmSelection) ==> PressEffect(s, ConfirmSelection, sourceId, cols, cards, freshId) == Effect(s.(mode := Move), cols, cards)
    ensures Available(s, Back) ==> PressEffect(s, Back, sourceId, cols, cards, freshId) == Effect(s.(mode := Select), cols, cards)
  {
  }

  /**
   * A move into a new collection with the shown collection present: the
   * new document lists exactly the selection, the shown one lists none of
   * it, and nothing else changes.
   */
  lemma MoveIntoNewCollection(s: ModalState, sourceId: string, cols: map<string, CollectionDoc>, freshId: string)
    requires s.newCollectionName != "" && freshId !in cols && sourceId in cols
    ensures var e := MoveCardsEffect(s, sourceId, cols, freshId);
      && e.outcome == Moved
      && e.collections.Keys == cols.Keys + {freshId}
      && e.collections[freshId] == CollectionDoc(s.newCollectionName, s.selected)
      && e.collections[sourceId].cards == RemoveAll(cols[sourceId].cards, s.selected)
      && (forall x :: x in s.selected ==> x !in e.collections[sourceId].cards)
      && (forall k :: k in cols && k != sourceId ==> e.collections[k] == cols[k])
      && e.state.collections == s.collections + [SetView(freshId, s.newCollectionName, s.selected)]
      && e.state.mode == View && e.state.selected == [] && e.state.closeRequested
      && e.state.newCollectionName == "" && e.state.flashcards == WithoutSelected(s.flashcards, s.selected)
  {
  }

  /**
   * A move into another existing collection: the target gains the
   * selection after its own ids, the shown collection loses it, nothing
   * else changes, and the modal resets to view mode and closes.
   */
  lemma MoveIntoExisting(s: ModalState, sourceId: string, cols: map<string, CollectionDoc>, freshId: string)
    requires s.newCollectionName == "" && s.selectedCollection != "" && s.selectedCollection != sourceId
    requires s.selectedCollection in cols && sourceId in cols
    ensures var e := MoveCardsEffect(s, sourceId, cols, freshId);
      var t := s.selectedCollection;
      && e.outcome == Moved
      && e.collections.Keys == cols.Keys
      && e.collections[t].cards == AppendMissing(cols[t].cards, s.selected)
      && e.collections[sourceId].cards == RemoveAll(cols[sourceId].cards, s.selected)
      && (forall x :: x in s.selected ==> x in e.collections[t].cards && x !in e.collections[sourceId].cards)
      && (forall k :: k in cols && k != sourceId && k != t ==> e.collections[k] == cols[k])
      && e.state.mode == View && e.state.selected == [] && e.state.closeRequested
      && e.state.flashcards == WithoutSelected(s.flashcards, s.selected)
  {
  }

  /**
   * Choosing the shown collection itself as the target (the option list
   * leaves it out, but the handler does not check): the union is undone by
   * the removal, so the selection leaves the collection and lands nowhere.
   */
  lemma {:induction false} MoveOntoItself(s: ModalState, sourceId: string, cols: map<string, CollectionDoc>, freshId: string)
    requires s.newCollectionName == "" && s.selectedCollection == sourceId && sourceId != "" && sourceId in cols
    ensures var e := MoveCardsEffect(s, sourceId, cols, freshId);
      && e.outcome == Moved
      && e.collections[sourceId].cards == RemoveAll(cols[sourceId].cards, s.selected)
      && (forall k :: k in cols && k != sourceId ==> e.collections[k] == cols[k])
  {
    RemoveAfterAppend(cols[sourceId].cards, s.selected, s.selected);
  }

  /**
   * When the shown collection has gone, the target has already been
   * written and the local list updated, but the cards stay shown and the
   * modal stays open in its mode.
   */
  lemma MoveSourceMissing(s: ModalState, sourceId: string, cols: map<string, CollectionDoc>, freshId: string)
    requires s.newCollectionName == "" && s.selectedCollection in cols && s.selectedCollection != ""
    requires sourceId !in cols
    ensures var e := MoveCardsEffect(s, sourceId, cols, freshId);
      && e.outcome == SourceMissing
      && e.collections == UnionInto(cols, s.selectedCollection, s.selected)
      && e.state == s.(collections := MirrorUnion(s.collections, s.selectedCollection, s.selected))
  {
  }

  /** Repeating a move into an existing collection leaves the store as the first move left it. */
  lemma {:induction false} MoveRepeatIdempotent(s: ModalState, sourceId: string, cols: map<string, CollectionDoc>, freshId: string)
    requires s.newCollectionName == "" && s.selectedCollection != ""
    requires s.selectedCollection in cols && sourceId in cols
    ensures var first := MoveCardsEffect(s, sourceId, cols, freshId).collections;
      MoveCardsEffect(s, sourceId, first, freshId).collections == first
  {
    var t := s.selectedCollection;
    var sel := s.selected;
    var first := MoveCardsEffect(s, sourceId, cols, freshId).collections;
    var second := MoveCardsEffect(s, sourceId, first, freshId).collections;
    if t == sourceId {
      var once := RemoveAll(cols[t].cards, sel);
      RemoveAfterAppend(cols[t].cards, sel, sel);
      RemoveAfterAppend(once, sel, sel);
      RemoveAllIdempotent(cols[t].cards, sel);
      assert first[t].cards == once;
      assert second[t].cards == once;
    } else {
      AppendMissingIdempotent(cols[t].cards, sel);
      RemoveAllIdempotent(cols[sourceId].cards, sel);
      assert second[t] == first[t];
      assert second[sourceId] == first[sourceId];
    }
    assert second == first;
  }

  /**
   * The local copy of a move target lists the same ids as the store, but
   * keeps a second copy of every selected id the target already held.
   */
  lemma MirrorKeepsDuplicates(collections: seq<SetView>, ids: seq<string>, i: nat)
    requires i < |collections|
    ensures var held := collections[i].cards;
      var mirrored := MirrorUnion(collections, collections[i].id, ids)[i].cards;
      && (forall x :: x in mirrored <==> x in AppendMissing(held, ids))
      && ((exists x :: x in held && x in ids) ==> !Distinct(mirrored))
  {
    var held := collections[i].cards;
    var mirrored := MirrorUnion(collections, collections[i].id, ids)[i].cards;
    assert mirrored == held + ids;
    if x :| x in held && x in ids {
      var a :| 0 <= a < |held| && held[a] == x;
      var b :| 0 <= b < |ids| && ids[b] == x;
      assert mirrored[a] == mirrored[|held| + b];
    }
  }

  /**
   * A deletion removes the selection from the shown collection and deletes
   * the card documents; other collections are left as they were, so one
   * that also listed a deleted card keeps a dangling id.
   */
  lemma DeleteEffects(s: ModalState, sourceId: string, cols: map<string, CollectionDoc>, cards: map<string, CardDoc>)
    requires sourceId in cols
    ensures var e := DeleteCardsEffect(s, sourceId, cols, cards);
      && e.outcome == Deleted
      && (forall x :: x in s.selected ==> x !in e.cards && x !in e.collections[sourceId].cards)
      && (forall x :: x in cards && x !in s.selected ==> x in e.cards && e.cards[x] == cards[x])
      && (forall k :: k in cols && k != sourceId ==> e.collections[k] == cols[k])
      && (forall k, x :: k in cols && k != sourceId && x in s.selected && x in cols[k].cards ==>
            x in e.collections[k].cards && x !in e.cards)
      && e.state.mode == View && e.state.selected == [] && e.state.closeRequested
  {
  }

  class DashboardFlashcardModal {
    const db: Namespace
    const sourceId: string
    var flashcards: seq<ShownCard>
    var revealed: seq<string>
    var collections: seq<SetView>
    var mode: Mode
    var selected: seq<string>
    var selectedCollection: string
    var newCollectionName: string
    var closeRequested: bool

    function State(): ModalState
      reads this
    {
      ModalState(flashcards, revealed, collections, mode, selected, selectedCollection, newCollectionName, closeRequested)
    }

    /** Opening the modal on a collection, with the loaded snapshots. */
    constructor (db: Namespace, sourceId: string, sourceCards: seq<string>,
                 cardSnapshot: seq<(string, CardDoc)>, collectionSnapshot: seq<(string, CollectionDoc)>)
      ensures this.db == db && this.sourceId == sourceId
      ensures State() == Initial(FetchedCards(cardSnapshot, sourceCards), FetchedCollections(collectionSnapshot))
    {
      this.db := db;
      this.sourceId := sourceId;
      flashcards := FetchedCards(cardSnapshot, sourceCards);
      revealed := [];
      collections := FetchedCollections(collectionSnapshot);
      mode := View;
      selected := [];
      selectedCollection := "";
      newCollectionName := "";
      closeRequested := false;
    }

    method ToggleReveal(id: string)
      modifies this`revealed
      ensures revealed == Toggle(old(revealed), id)
    {
      if id in revealed {
        revealed := RemoveAll(revealed, [id]);
      } else {
        revealed := revealed + [id];
      }
    }

    method ToggleCardSelection(id: string)
      modifies this`selected
      ensures selected == Toggle(old(selected), id)
    {
      if id in selected {
        selected := RemoveAll(selected, [id]);
      } else {
        selected := selected + [id];
      }
    }

    method Click(id: string)
      modifies this`revealed, this`selected
      ensures State() == ClickCard(old(State()), id)
    {
      if mode == Select || mode == Delete {
        ToggleCardSelection(id);
      } else {
        ToggleReveal(id);
      }
    }

    method MoveCards(freshId: string) returns (outcome: MoveOutcome)
      requires freshId !in db.collections
      modifies this, db
      ensures var e := MoveCardsEffect(old(State()), sourceId, old(db.collections), freshId);
        outcome == e.outcome && State() == e.state && db.collections == e.collections
      ensures db.cards == old(db.cards)
    {
      if selectedCollection == "" && newCollectionName == "" {
        return MoveSkipped;
      }
      var ids := selected;
      if newCollectionName != "" {
        var target := db.AddCollection(freshId, CollectionDoc(newCollectionName, ids));
        collections := collections + [SetView(target, newCollectionName, ids)];
      } else {
        var ok := db.UpdateUnion(selectedCollection, ids);
        if !ok {
          return TargetMissing;
        }
        collections := MirrorUnion(collections, selectedCollection, ids);
      }
      var removed := db.UpdateRemove(sourceId, ids);
      if !removed {
        return SourceMissing;
      }
      flashcards := WithoutSelected(flashcards, ids);
      selected := [];
      mode := View;
      newCollectionName := "";
      selectedCollection := "";
      closeRequested := true;
      outcome := Moved;
    }

    method DeleteCards() returns (outcome: DeleteOutcome)
      modifies this, db
      ensures var e := DeleteCardsEffect(old(State()), sourceId, old(db.collections), old(db.cards));
        outcome == e.outcome && State() == e.state && db.collections == e.collections && db.cards == e.cards
    {
      var ids := selected;
      var ok := db.UpdateRemove(sourceId, ids);
      if !ok {
        return DeleteFailed;
      }
      db.DeleteCards(ids);
      flashcards := WithoutSelected(flashcards, ids);
      selected := [];
      mode := View;
      closeRequested := true;
      outcome := Deleted;
    }

    method Press(b: Button, freshId: string)
      requires freshId !in db.collections
      modifies this, db
      ensures var e := PressEffect(old(State()), b, sourceId, old(db.collections), old(db.cards), freshId);
        State() == e.state && db.collections == e.collections && db.cards == e.cards
    {
      if !Available(State(), b) {
        return;
      }
      match b
      case Close => closeRequested := true;
      case StartMove => mode := Select;
      case StartDelete => mode := Delete;
      case Cancel => mode := View; selected := [];
      case ConfirmSelection => mode := Move;
      case Back => mode := Select;
      case SubmitMove => var _ := MoveCards(freshId);
      case SubmitDelete => var _ := DeleteCards();
    }
  }
}
