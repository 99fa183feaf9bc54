/**
 * The dashboard page: the persona's collections as cards on a grid, with
 * deletion of a whole collection and a merge mode that gathers a
 * selection of collection ids.
 */
module DashboardPage {
  import opened Wrappers
  import opened Seqs
  import opened Firestore

  /** A listed collection. */
  datatype SetEntry = SetEntry(id: string, collectionName: string, cards: seq<string>)

  /** The list loaded from the collection snapshot, in snapshot order. */
  function FetchedSets(snapshot: seq<(string, CollectionDoc)>): seq<SetEntry> {
    seq(|snapshot|, i requires 0 <= i < |snapshot| =>
      SetEntry(snapshot[i].0, snapshot[i].1.collectionName, snapshot[i].1.cards))
  }

  /** The list without the entries of one id; the rest keeps its order. */
  function DropSet(sets: seq<SetEntry>, setId: string): (r: seq<SetEntry>)
    ensures forall e :: e in r <==> e in sets && e.id != setId
    ensures IsSubsequence(r, sets)
    ensures (forall e :: e in sets ==> e.id != setId) ==> r == sets
  {
    if sets == [] then []
    else
      var rest := DropSet(sets[1..], setId);
      assert sets == [sets[0]] + sets[1..];
      if sets[0].id == setId then rest else [sets[0]] + rest
  }

  /** The merge button is enabled from two selected collections on. */
  predicate MergeEnabled(selected: seq<string>) {
    |selected| >= 2
  }

  /**
   * From an empty selection, one pick leaves the merge button disabled,
   * and a second pick enables it exactly when it is a different collection
   * (picking the same one again unselects it).
   */
  lemma {:induction false} MergeAfterTwoPicks(a: string, b: string)
    ensures !MergeEnabled(Toggle([], a))
    ensures MergeEnabled(Toggle(Toggle([], a), b)) <==> a != b
  {
    assert Toggle([], a) == [a];
    if a == b {
      assert |RemoveAll([a], [a])| <= 1;
    } else {
      assert b !in [a];
      assert Toggle([a], b) == [a, b];
    }
  }

  class Dashboard {
    const db: Namespace
    const signedIn: bool
    const userType: Option<string>
    var flashcardSets: seq<SetEntry>
    var mergeMode: bool
    var selectedSetsForMerge: seq<string>

    constructor (db: Namespace, signedIn: bool, userType: Option<string>, snapshot: seq<(string, CollectionDoc)>)
      ensures this.db == db && this.signedIn == signedIn && this.userType == userType
      ensures flashcardSets == FetchedSets(snapshot) && !mergeMode && selectedSetsForMerge == []
    {
      this.db := db;
      this.signedIn := signedIn;
      this.userType := userType;
      flashcardSets := FetchedSets(snapshot);
      mergeMode := false;
      selectedSetsForMerge := [];
    }

    /**
     * `handleDeleteSet`: without a user or a persona nothing happens;
     * otherwise that collection document goes and so does its entry. The
     * card documents it listed stay.
     */
    method HandleDeleteSet(setId: string)
      modifies this`flashcardSets, db
      ensures db.cards == old(db.cards)
      ensures !signedIn || userType.None? || userType.value == "" ==>
        db.collections == old(db.collections) && flashcardSets == old(flashcardSets)
      ensures signedIn && userType.Some? && userType.value != "" ==>
        db.collections == old(db.collections) - {setId} && flashcardSets == DropSet(old(flashcardSets), setId)
    {
      if !signedIn || userType.None? || userType.value == "" {
        return;
      }
      db.DeleteCollection(setId);
      flashcardSets := DropSet(flashcardSets, setId);
    }

    /** `toggleSetForMerge`. */
    method ToggleSetForMerge(setId: string)
      modifies this`selectedSetsForMerge
      ensures selectedSetsForMerge == Toggle(old(selectedSetsForMerge), setId)
    {
      if setId in selectedSetsForMerge {
        selectedSetsForMerge := RemoveAll(selectedSetsForMerge, [setId]);
      } else {
        selectedSetsForMerge := selectedSetsForMerge + [setId];
      }
    }

    /** The merge-mode button: flips the mode and leaves the selection as it is. */
    method ToggleMergeMode()
      modifies this`mergeMode
      ensures mergeMode == !old(mergeMode)
    {
      mergeMode := !mergeMode;
    }

    /** `handleMergeSets` only logs the selection: nothing is written. */
    method HandleMergeSets()
      ensures db.collections == old(db.collections) && db.cards == old(db.cards)
      ensures flashcardSets == old(flashcardSets) && selectedSetsForMerge == old(selectedSetsForMerge)
    {
    }
  }
}
