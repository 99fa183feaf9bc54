/**
 * The set management modal over the older `flashcardCollections` store,
 * whose documents hold a name and the card objects themselves. Card
 * objects are compared whole by `arrayUnion` and `arrayRemove`.
 */
module SetManagement {
  import opened Wrappers
  import opened Seqs
  import opened Generation

  /** `flashcardCollections/{id}`. */
  datatype LegacySet = LegacySet(name: string, flashcards: seq<Card>)

  /** The sets after `updateDoc(id, {name})`: only that name changes. */
  function Renamed(sets: map<string, LegacySet>, id: string, name: string): (r: map<string, LegacySet>)
    ensures r.Keys == sets.Keys
    ensures id in sets ==> r[id].name == name && r[id].flashcards == sets[id].flashcards
    ensures forall k :: k in sets && k != id ==> r[k] == sets[k]
  {
    if id in sets then sets[id := sets[id].(name := name)] else sets
  }

  /** The sets after `updateDoc(id, {flashcards: arrayUnion(card)})`. */
  function CardAdded(sets: map<string, LegacySet>, id: string, card: Card): (r: map<string, LegacySet>)
    ensures r.Keys == sets.Keys
    ensures id in sets ==> r[id] == sets[id].(flashcards := AppendMissing(sets[id].flashcards, [card]))
    ensures forall k :: k in sets && k != id ==> r[k] == sets[k]
  {
    if id in sets then sets[id := sets[id].(flashcards := AppendMissing(sets[id].flashcards, [card]))] else sets
  }

  /** The sets after `updateDoc(id, {flashcards: arrayRemove(card)})`. */
  function CardRemoved(sets: map<string, LegacySet>, id: string, card: Card): (r: map<string, LegacySet>)
    ensures r.Keys == sets.Keys
    ensures id in sets ==> r[id] == sets[id].(flashcards := RemoveAll(sets[id].flashcards, [card]))
    ensures forall k :: k in sets && k != id ==> r[k] == sets[k]
  {
    if id in sets then sets[id := sets[id].(flashcards := RemoveAll(sets[id].flashcards, [card]))] else sets
  }

  class LegacyStore {
    var sets: map<string, LegacySet>

    constructor (sets: map<string, LegacySet>)
      ensures this.sets == sets
    {
      this.sets := sets;
    }

    method UpdateName(id: string, name: string) returns (ok: bool)
      modifies this
      ensures ok == (id in old(sets)) && sets == Renamed(old(sets), id, name)
    {
      ok := id in sets;
      sets := Renamed(sets, id, name);
    }

    method UnionCard(id: string, card: Card) returns (ok: bool)
      modifies this
      ensures ok == (id in old(sets)) && sets == CardAdded(old(sets), id, card)
    {
      ok := id in sets;
      sets := CardAdded(sets, id, card);
    }

    method RemoveCard(id: string, card: Card) returns (ok: bool)
      modifies this
      ensures ok == (id in old(sets)) && sets == CardRemoved(old(sets), id, card)
    {
      ok := id in sets;
      sets := CardRemoved(sets, id, card);
    }
  }

  /** `find`: the first card with the id. */
  function FindById(cards: seq<Card>, id: string): (r: Option<Card>)
    ensures r.None? <==> forall c :: c in cards ==> c.id != id
    ensures r.Some? ==> r.value in cards && r.value.id == id
    ensures r.Some? ==> exists i :: 0 <= i < |cards| && cards[i] == r.value && forall j :: 0 <= j < i ==> cards[j].id != id
  {
    if cards == [] then None
    else if cards[0].id == id then Some(cards[0])
    else
      var r := FindById(cards[1..], id);
      assert cards == [cards[0]] + cards[1..];
      if r.Some? then
        ghost var i :| 0 <= i < |cards[1..]| && cards[1..][i] == r.value && forall j :: 0 <= j < i ==> cards[1..][j].id != id;
        assert cards[i + 1] == r.value;
        r
      else r
  }

  /** `filter`: every card with another id, in order. */
  function WithoutId(cards: seq<Card>, id: string): (r: seq<Card>)
    ensures forall c :: c in r <==> c in cards && c.id != id
    ensures IsSubsequence(r, cards)
  {
    if cards == [] then []
    else
      var rest := WithoutId(cards[1..], id);
      assert cards == [cards[0]] + cards[1..];
      if cards[0].id == id then rest else [cards[0]] + rest
  }

  predicate UniqueIds(cards: seq<Card>) {
    forall i, j :: 0 <= i < j < |cards| ==> cards[i].id != cards[j].id
  }

  /**
   * When ids are unique, removing the found card object and dropping every
   * card with that id give the same list, so store and local list agree.
   */
  lemma {:induction false} RemoveFoundIsFilter(cards: seq<Card>, id: string)
    requires UniqueIds(cards) && FindById(cards, id).Some?
    ensures RemoveAll(cards, [FindById(cards, id).value]) == WithoutId(cards, id)
  {
    var c := FindById(cards, id).value;
    assert cards == [cards[0]] + cards[1..];
    if cards[0].id == id {
      assert c == cards[0];
      assert forall d :: d in cards[1..] ==> d.id != id by {
        forall d | d in cards[1..] ensures d.id != id {
          var k :| 0 <= k < |cards[1..]| && cards[1..][k] == d;
          assert cards[k + 1] == d;
        }
      }
      RemoveAbsent(cards[1..], [c]);
      WithoutAbsent(cards[1..], id);
    } else {
      assert UniqueIds(cards[1..]) by {
        forall i, j | 0 <= i < j < |cards[1..]| ensures cards[1..][i].id != cards[1..][j].id {
          assert cards[1..][i] == cards[i + 1] && cards[1..][j] == cards[j + 1];
        }
      }
      assert FindById(cards, id) == FindById(cards[1..], id);
      RemoveFoundIsFilter(cards[1..], id);
      assert cards[0] != c;
    }
  }

  lemma {:induction false} WithoutAbsent(cards: seq<Card>, id: string)
    requires forall d :: d in cards ==> d.id != id
    ensures WithoutId(cards, id) == cards
  {
    if cards != [] {
      assert cards == [cards[0]] + cards[1..];
      WithoutAbsent(cards[1..], id);
    }
  }

  /**
   * With two cards sharing an id, the local list drops both while the
   * store drops only the one found.
   */
  lemma SharedIdDiverges()
    ensures var a := Card("1", "q1", "a1", "");
      var b := Card("1", "q2", "a2", "");
      && FindById([a, b], "1") == Some(a)
      && WithoutId([a, b], "1") == []
      && RemoveAll([a, b], [a]) == [b]
  {
    var a := Card("1", "q1", "a1", "");
    var b := Card("1", "q2", "a2", "");
    assert [a, b][1..] == [b];
    assert [b][1..] == [];
  }

  class SetManagementModal {
    const store: LegacyStore
    const setId: string
    const signedIn: bool
    var setName: string
    var newCardQuestion: string
    var newCardAnswer: string
    var flashcards: seq<Card>

    /** Opening the modal: the set's name and cards are loaded when the user is signed in and the set exists. */
    constructor (store: LegacyStore, setId: string, signedIn: bool)
      ensures this.store == store && this.setId == setId && this.signedIn == signedIn
      ensures signedIn && setId in store.sets ==> setName == store.sets[setId].name && flashcards == store.sets[setId].flashcards
      ensures !(signedIn && setId in store.sets) ==> setName == "" && flashcards == []
      ensures newCardQuestion == "" && newCardAnswer == ""
    {
      this.store := store;
      this.setId := setId;
      this.signedIn := signedIn;
      newCardQuestion := "";
      newCardAnswer := "";
      if signedIn && setId in store.sets {
        setName := store.sets[setId].name;
        flashcards := store.sets[setId].flashcards;
      } else {
        setName := "";
        flashcards := [];
      }
    }

    /** `handleRenameSet`: writes the edited name, and nothing else. */
    method HandleRenameSet() returns (ok: bool)
      modifies store
      ensures !signedIn ==> !ok && store.sets == old(store.sets)
      ensures signedIn ==> ok == (setId in old(store.sets)) && store.sets == Renamed(old(store.sets), setId, setName)
    {
      if !signedIn {
        return false;
      }
      ok := store.UpdateName(setId, setName);
    }

    /**
     * `handleAddCard`: a card with the entered texts, no image and the
     * clock-derived id `now` is unioned into the set; on success it is
     * appended locally and both inputs are cleared.
     */
    method HandleAddCard(now: string) returns (ok: bool)
      modifies this`flashcards, this`newCardQuestion, this`newCardAnswer, store
      ensures var card := Card(now, old(newCardQuestion), old(newCardAnswer), "");
        store.sets == (if signedIn then CardAdded(old(store.sets), setId, card) else old(store.sets))
        && ok == (signedIn && setId in old(store.sets))
        && (ok ==> flashcards == old(flashcards) + [card] && newCardQuestion == "" && newCardAnswer == "")
      ensures !ok ==> flashcards == old(flashcards) && newCardQuestion == old(newCardQuestion) && newCardAnswer == old(newCardAnswer)
    {
      if !signedIn {
        return false;
      }
      var card := Card(now, newCardQuestion, newCardAnswer, "");
      ok := store.UnionCard(setId, card);
      if ok {
        flashcards := flashcards + [card];
        newCardQuestion := "";
        newCardAnswer := "";
      }
    }

    /**
     * `handleRemoveCard`: nothing unless a shown card has the id; then the
     * first such card object is removed from the set and, on success,
     * every shown card with that id is dropped.
     */
    method HandleRemoveCard(cardId: string) returns (ok: bool)
      modifies this`flashcards, store
      ensures var found := FindById(old(flashcards), cardId);
        && (!signedIn || found.None? ==> !ok && store.sets == old(store.sets) && flashcards == old(flashcards))
        && (signedIn && found.Some? ==>
              ok == (setId in old(store.sets))
              && store.sets == CardRemoved(old(store.sets), setId, found.value)
              && flashcards == (if ok then WithoutId(old(flashcards), cardId) else old(flashcards)))
    {
      if !signedIn {
        return false;
      }
      var found := FindById(flashcards, cardId);
      if found.None? {
        return false;
      }
      ok := store.RemoveCard(setId, found.value);
      if ok {
        flashcards := WithoutId(flashcards, cardId);
      }
    }
  }
}
