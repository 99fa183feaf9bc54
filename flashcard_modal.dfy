/**
 * The modal shown after generation: it steps through the new cards and
 * files all of them into a chosen or a newly created collection, taking
 * them out of `default` first.
 */
module FlashcardModal {
  import opened Wrappers
  import opened Seqs
  import opened Generation
  import opened Firestore

  /**
   * JavaScript `%` by a positive divisor: truncating division, so the
   * remainder takes the sign of the dividend.
   */
  function JsRem(a: int, b: int): (r: int)
    requires b > 0
    ensures a >= 0 ==> 0 <= r < b
    ensures a < 0 ==> -b < r <= 0
    ensures 0 <= a < b ==> r == a
    ensures b <= a < 2 * b ==> r == a - b
  {
    if a < 0 then -((-a) % b)
    else if a < b then ModSmall(a, b); a % b
    else if a < 2 * b then ModWrap(a, b); a % b
    else a % b
  }

  lemma ModSmall(x: int, n: int)
    requires 0 <= x < n
    ensures x % n == x
  {
  }

  lemma ModWrap(x: int, n: int)
    requires 0 < n <= x < 2 * n
    ensures x % n == x - n
  {
  }

  /** `handleNext`; `None` is NaN, which `% 0` yields on an empty list and keeps thereafter. */
  function NextIndex(i: Option<int>, n: nat): (r: Option<int>)
    ensures i.Some? && 0 <= i.value < n ==> r == Some(if i.value + 1 < n then i.value + 1 else 0)
    ensures n == 0 || i.None? ==> r.None?
  {
    if n == 0 || i.None? then None else Some(JsRem(i.value + 1, n))
  }

  /** `handlePrevious`. */
  function PreviousIndex(i: Option<int>, n: nat): (r: Option<int>)
    ensures i.Some? && 0 <= i.value < n ==> r == Some(if i.value > 0 then i.value - 1 else n - 1)
    ensures n == 0 || i.None? ==> r.None?
  {
    if n == 0 || i.None? then None else Some(JsRem(i.value - 1 + n, n))
  }

  /** Previous undoes next and next undoes previous, on every index of a non-empty deck. */
  lemma NextPreviousInverse(i: int, n: nat)
    requires 0 <= i < n
    ensures PreviousIndex(NextIndex(Some(i), n), n) == Some(i)
    ensures NextIndex(PreviousIndex(Some(i), n), n) == Some(i)
  {
  }

  /** `k` presses of next. */
  function NextTimes(i: Option<int>, n: nat, k: nat): Option<int> {
    if k == 0 then i else NextIndex(NextTimes(i, n, k - 1), n)
  }

  lemma {:induction false} NextTimesForward(i: int, n: nat, k: nat)
    requires 0 <= i && i + k < n
    ensures NextTimes(Some(i), n, k) == Some(i + k)
  {
    if k > 0 {
      NextTimesForward(i, n, k - 1);
    }
  }

  lemma {:induction false} NextTimesCompose(x: Option<int>, n: nat, a: nat, b: nat)
    ensures NextTimes(x, n, a + b) == NextTimes(NextTimes(x, n, a), n, b)
  {
    if b > 0 {
      NextTimesCompose(x, n, a, b - 1);
    }
  }

  /** Pressing next once per card brings the deck back to the card it started on. */
  lemma {:induction false} NextOrbit(i: int, n: nat)
    requires 0 <= i < n
    ensures NextTimes(Some(i), n, n) == Some(i)
  {
    var m := n - 1 - i;
    NextTimesForward(i, n, m);
    assert NextTimes(Some(i), n, m) == Some(n - 1);
    NextTimesCompose(Some(i), n, m, i + 1);
    assert m + (i + 1) == n;
    assert NextTimes(Some(i), n, n) == NextTimes(Some(n - 1), n, i + 1);
    NextTimesCompose(Some(n - 1), n, 1, i);
    assert NextTimes(Some(n - 1), n, 0) == Some(n - 1);
    assert NextTimes(Some(n - 1), n, 1) == NextIndex(Some(n - 1), n) == Some(0);
    NextTimesForward(0, n, i);
  }

  /** The initial value of the collection picker, which names no collection. */
  const InitialSelection: string := "Select a collection"

  /** A picker entry. */
  datatype CollectionOption = CollectionOption(id: string, name: string)

  /** The ids of the generated cards, in order (`flashcards.map(card => card.id)`). */
  function Ids(cards: seq<Card>): seq<string> {
    seq(|cards|, i requires 0 <= i < |cards| => cards[i].id)
  }

  datatype AddOutcome = AddSkipped | AddFailed | Added

  /**
   * `handleAddToCollection`: with a selection and a signed-in user, the
   * ids leave `default` (when it exists) and are then unioned into the
   * selected collection, which fails when that document is missing.
   */
  function AddToCollectionEffect(signedIn: bool, selected: string, cols: map<string, CollectionDoc>, ids: seq<string>)
    : (AddOutcome, map<string, CollectionDoc>)
  {
    if selected == "" || !signedIn then (AddSkipped, cols)
    else
      var stripped := RemoveFrom(cols, DefaultCollectionId, ids);
      if selected !in stripped then (AddFailed, stripped)
      else (Added, UnionInto(stripped, selected, ids))
  }

  /**
   * `handleCreateCollection`: with a name and a signed-in user, the ids
   * leave `default` and a new collection listing them is added.
   */
  function CreateCollectionEffect(signedIn: bool, name: string, cols: map<string, CollectionDoc>, ids: seq<string>, freshId: string)
    : (bool, map<string, CollectionDoc>)
  {
    if name == "" || !signedIn then (false, cols)
    else (true, RemoveFrom(cols, DefaultCollectionId, ids)[freshId := CollectionDoc(name, ids)])
  }

  /**
   * Adding to a collection other than `default`: `default` no longer lists
   * the cards, the selected collection lists all of them after its own,
   * and nothing else changes.
   */
  lemma AddMovesOutOfDefault(selected: string, cols: map<string, CollectionDoc>, ids: seq<string>)
    requires selected != "" && selected != DefaultCollectionId && selected in cols
    ensures var (outcome, r) := AddToCollectionEffect(true, selected, cols, ids);
      && outcome == Added
      && r.Keys == cols.Keys
      && r[selected].cards == AppendMissing(cols[selected].cards, ids)
      && (forall x :: x in ids ==> x in r[selected].cards)
      && (DefaultCollectionId in cols ==> forall x :: x in ids ==> x !in r[DefaultCollectionId].cards)
      && (forall k :: k in cols && k != selected && k != DefaultCollectionId ==> r[k] == cols[k])
  {
  }

  /** Adding to `default` itself: the ids are taken out and put back at its end. */
  lemma AddIntoDefault(cols: map<string, CollectionDoc>, ids: seq<string>)
    requires DefaultCollectionId in cols
    ensures var (outcome, r) := AddToCollectionEffect(true, DefaultCollectionId, cols, ids);
      && outcome == Added
      && r[DefaultCollectionId].cards == AppendMissing(RemoveAll(cols[DefaultCollectionId].cards, ids), ids)
      && forall x :: x in ids ==> x in r[DefaultCollectionId].cards
  {
  }

  /**
   * A selection that names no stored collection (such as the picker's
   * initial text) fails only after `default` was stripped: cards listed
   * only in `default` are then listed nowhere.
   */
  lemma {:induction false} AddToMissingStrandsCards(selected: string, cols: map<string, CollectionDoc>, ids: seq<string>)
    requires selected != "" && selected !in cols
    requires forall k, x :: k in cols && k != DefaultCollectionId && x in ids ==> x !in cols[k].cards
    ensures var (outcome, r) := AddToCollectionEffect(true, selected, cols, ids);
      && outcome == AddFailed
      && r.Keys == cols.Keys
      && forall k, x :: k in r && x in ids ==> x !in r[k].cards
  {
    var (outcome, r) := AddToCollectionEffect(true, selected, cols, ids);
    forall k, x | k in r && x in ids
      ensures x !in r[k].cards
    {
      if k == DefaultCollectionId {
        assert r[k].cards == RemoveAll(cols[k].cards, ids);
      } else {
        assert r[k] == cols[k];
      }
    }
  }

  /**
   * Creating a collection: it lists exactly the cards, in order, `default`
   * lists none of them, and nothing else changes.
   */
  lemma CreateCollectionLists(name: string, cols: map<string, CollectionDoc>, ids: seq<string>, freshId: string)
    requires name != "" && freshId !in cols
    ensures var (created, r) := CreateCollectionEffect(true, name, cols, ids, freshId);
      && created
      && r.Keys == cols.Keys + {freshId}
      && r[freshId] == CollectionDoc(name, ids)
      && (DefaultCollectionId in cols ==> forall x :: x in ids ==> x !in r[DefaultCollectionId].cards)
      && (forall k :: k in cols && k != DefaultCollectionId ==> r[k] == cols[k])
  {
  }

  class FlashcardModal {
    const db: Namespace
    const flashcards: seq<Card>
    const signedIn: bool
    var currentIndex: Option<int>
    var collections: seq<CollectionOption>
    var selectedCollection: string
    var newCollectionName: string

    constructor (db: Namespace, flashcards: seq<Card>, signedIn: bool, collections: seq<CollectionOption>)
      ensures this.db == db && this.flashcards == flashcards && this.signedIn == signedIn
      ensures currentIndex == Some(0) && this.collections == collections
      ensures selectedCollection == InitialSelection && newCollectionName == ""
    {
      this.db := db;
      this.flashcards := flashcards;
      this.signedIn := signedIn;
      currentIndex := Some(0);
      this.collections := collections;
      selectedCollection := InitialSelection;
      newCollectionName := "";
    }

    method HandleNext()
      modifies this`currentIndex
      ensures currentIndex == NextIndex(old(currentIndex), |flashcards|)
    {
      currentIndex := NextIndex(currentIndex, |flashcards|);
    }

    method HandlePrevious()
      modifies this`currentIndex
      ensures currentIndex == PreviousIndex(old(currentIndex), |flashcards|)
    {
      currentIndex := PreviousIndex(currentIndex, |flashcards|);
    }

    method HandleAddToCollection() returns (outcome: AddOutcome)
      modifies db
      ensures (outcome, db.collections) == AddToCollectionEffect(signedIn, selectedCollection, old(db.collections), Ids(flashcards))
      ensures db.cards == old(db.cards)
    {
      if selectedCollection == "" || !signedIn {
        return AddSkipped;
      }
      var ids := Ids(flashcards);
      if DefaultCollectionId in db.collections {
        var _ := db.UpdateRemove(DefaultCollectionId, ids);
      }
      var ok := db.UpdateUnion(selectedCollection, ids);
      outcome := if ok then Added else AddFailed;
    }

    method HandleCreateCollection(freshId: string) returns (created: bool)
      requires freshId !in db.collections
      modifies this`collections, this`newCollectionName, this`selectedCollection, db
      ensures (created, db.collections) == CreateCollectionEffect(signedIn, old(newCollectionName), old(db.collections), Ids(flashcards), freshId)
      ensures db.cards == old(db.cards)
      ensures created ==> (collections == old(collections) + [CollectionOption(freshId, old(newCollectionName))]
        && newCollectionName == "" && selectedCollection == freshId)
      ensures !created ==> (collections == old(collections)
        && newCollectionName == old(newCollectionName) && selectedCollection == old(selectedCollection))
    {
      if newCollectionName == "" || !signedIn {
        return false;
      }
      var ids := Ids(flashcards);
      if DefaultCollectionId in db.collections {
        var _ := db.UpdateRemove(DefaultCollectionId, ids);
      }
      var id := db.AddCollection(freshId, CollectionDoc(newCollectionName, ids));
      collections := collections + [CollectionOption(id, newCollectionName)];
      newCollectionName := "";
      selectedCollection := id;
      created := true;
    }
  }
}
