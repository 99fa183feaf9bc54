/**
 * The flashcards endpoint: generate cards for the persona, store each one as
 * a card document, list the new ids in the requested collection (created on
 * first use), and answer with the cards carrying their stored ids.
 *
 * The two copies of the route differ in one step only: `route_1.js` also
 * strips the new ids from the `default` collection, `route.ts` has that step
 * commented out. `DefaultPolicy` selects between them.
 */
module FlashcardsRoute {
  import opened Wrappers
  import opened Seqs
  import opened Generation
  import opened Firestore

  datatype Request = Request(subject: string, location: string, userType: string, collectionName: Option<string>)

  datatype DefaultPolicy = KeepDefault | StripDefault

  /** The target collection id: the requested name, `default` when the field is absent. */
  function TargetId(req: Request): (id: string)
    ensures req.collectionName.Some? ==> id == req.collectionName.value
    ensures req.collectionName.None? ==> id == DefaultCollectionId
  {
    match req.collectionName
    case None => DefaultCollectionId
    case Some(name) => name
  }

  /**
   * The display name written when the target collection is created. It is
   * "Default Collection" for the id `default` and for the id that is itself
   * "Default Collection"; every other id is its own display name.
   */
  function DisplayName(id: string): (name: string)
    ensures name == "Default Collection" <==> id == DefaultCollectionId || id == "Default Collection"
    ensures id != DefaultCollectionId ==> name == id
  {
    if id == DefaultCollectionId then "Default Collection" else id
  }

  /** The card document stored for a generated card. */
  function CardRecord(c: Card): (d: CardDoc)
    ensures d.question == c.question && d.answer == c.answer && d.picture == c.backgroundImage
  {
    CardDoc(c.question, c.answer, c.backgroundImage)
  }

  /**
   * The collections after the route's collection steps: create the target
   * if absent, union the new ids into it, and (under `StripDefault`) remove
   * them from `default`.
   */
  function AttachCollections(cols: map<string, CollectionDoc>, target: string, ids: seq<string>, policy: DefaultPolicy): map<string, CollectionDoc>
  {
    var created := if target in cols then cols else cols[target := CollectionDoc(DisplayName(target), [])];
    var unioned := UnionInto(created, target, ids);
    if policy == StripDefault then RemoveFrom(unioned, DefaultCollectionId, ids) else unioned
  }

  /** The ids a collection listed before the call, empty for one the call creates. */
  function PriorCards(cols: map<string, CollectionDoc>, id: string): seq<string> {
    if id in cols then cols[id].cards else []
  }

  /**
   * The target exists afterwards with its old display name or, when new,
   * `DisplayName(target)`; it lists its old ids followed by the new ones,
   * unless the target is `default` and `default` is stripped.
   */
  lemma AttachTarget(cols: map<string, CollectionDoc>, target: string, ids: seq<string>, policy: DefaultPolicy)
    ensures var r := AttachCollections(cols, target, ids, policy);
      && r.Keys == cols.Keys + {target}
      && r[target].collectionName == (if target in cols then cols[target].collectionName else DisplayName(target))
      && (policy == KeepDefault || target != DefaultCollectionId ==>
            r[target].cards == AppendMissing(PriorCards(cols, target), ids)
            && forall x :: x in ids ==> x in r[target].cards)
  {
  }

  /** No collection other than the target, and `default` when stripped, is written. */
  lemma AttachFrame(cols: map<string, CollectionDoc>, target: string, ids: seq<string>, policy: DefaultPolicy)
    ensures var r := AttachCollections(cols, target, ids, policy);
      forall k :: k in cols && k != target && (policy == KeepDefault || k != DefaultCollectionId) ==> r[k] == cols[k]
  {
  }

  /**
   * Under `StripDefault`, `default` (when it exists) no longer lists any
   * new id and keeps its other ids in order.
   */
  lemma AttachStripsDefault(cols: map<string, CollectionDoc>, target: string, ids: seq<string>)
    requires DefaultCollectionId in cols || target == DefaultCollectionId
    ensures var r := AttachCollections(cols, target, ids, StripDefault);
      && DefaultCollectionId in r
      && (forall x :: x in ids ==> x !in r[DefaultCollectionId].cards)
      && r[DefaultCollectionId].cards == RemoveAll(PriorCards(cols, DefaultCollectionId), ids)
  {
    var created := if target in cols then cols else cols[target := CollectionDoc(DisplayName(target), [])];
    if target == DefaultCollectionId {
      RemoveAfterAppend(PriorCards(cols, DefaultCollectionId), ids, ids);
    }
  }

  /**
   * `route_1.js` with the target `default`: the new ids are unioned into
   * `default` and then removed from it again, so when they were listed
   * nowhere before, no collection lists them afterwards.
   */
  lemma {:induction false} StripDefaultOrphansDefaultTarget(cols: map<string, CollectionDoc>, ids: seq<string>)
    requires forall k, x :: k in cols && x in ids ==> x !in cols[k].cards
    ensures var r := AttachCollections(cols, DefaultCollectionId, ids, StripDefault);
      forall k, x :: k in r && x in ids ==> x !in r[k].cards
  {
    AttachStripsDefault(cols, DefaultCollectionId, ids);
  }

  /** `route.ts` with the target `default`: the new ids stay in `default`. */
  lemma KeepDefaultListsNewCards(cols: map<string, CollectionDoc>, target: string, ids: seq<string>)
    ensures var r := AttachCollections(cols, target, ids, KeepDefault);
      forall x :: x in ids ==> x in r[target].cards
  {
    AttachTarget(cols, target, ids, KeepDefault);
  }

  /**
   * The saving loop of `POST`: each card is stored under the next id of
   * `freshIds` (the ids `addDoc` hands out) and takes that id; the
   * collections are not touched.
   */
  method SaveCards(db: Namespace, cards: seq<Card>, freshIds: seq<string>)
      returns (flashcards: seq<Card>, cardIds: seq<string>)
    requires |freshIds| == |cards| && Distinct(freshIds)
    requires forall i :: 0 <= i < |freshIds| ==> freshIds[i] !in db.cards
    modifies db
    ensures cardIds == freshIds && |flashcards| == |cards|
    ensures forall i :: 0 <= i < |cards| ==> flashcards[i] == cards[i].(id := freshIds[i])
    ensures db.cards.Keys == old(db.cards).Keys + (set x | x in freshIds)
    ensures forall k :: k in old(db.cards) ==> db.cards[k] == old(db.cards)[k]
    ensures forall i :: 0 <= i < |cards| ==> db.cards[freshIds[i]] == CardRecord(cards[i])
    ensures db.collections == old(db.collections)
  {
    flashcards := cards;
    cardIds := [];
    var i := 0;
    while i < |cards|
      invariant 0 <= i <= |cards| && |flashcards| == |cards|
      invariant cardIds == freshIds[..i]
      invariant forall j :: 0 <= j < i ==> flashcards[j] == cards[j].(id := freshIds[j])
      invariant forall j :: i <= j < |cards| ==> flashcards[j] == cards[j]
      invariant db.collections == old(db.collections)
      invariant db.cards.Keys == old(db.cards).Keys + (set x | x in freshIds[..i])
      invariant forall k :: k in old(db.cards) ==> db.cards[k] == old(db.cards)[k]
      invariant forall j :: 0 <= j < i ==> db.cards[freshIds[j]] == CardRecord(cards[j])
    {
      assert freshIds[i] !in freshIds[..i];
      var id := db.AddCard(freshIds[i], CardRecord(flashcards[i]));
      cardIds := cardIds + [id];
      flashcards := flashcards[i := flashcards[i].(id := id)];
      assert freshIds[..i + 1] == freshIds[..i] + [freshIds[i]];
      i := i + 1;
    }
    assert freshIds[..i] == freshIds;
  }

  /**
   * `POST`: generate the cards from the upstream replies, create the target
   * collection when missing, save the cards, then the collection steps.
   */
  method Post(db: Namespace, req: Request, up: Upstream, freshIds: seq<string>, policy: DefaultPolicy)
      returns (flashcards: seq<Card>, cardIds: seq<string>)
    requires |freshIds| == |GenerateCards(req.userType, req.subject, req.location, up)|
    requires Distinct(freshIds)
    requires forall i :: 0 <= i < |freshIds| ==> freshIds[i] !in db.cards
    modifies db
    ensures var cards := GenerateCards(req.userType, req.subject, req.location, up);
      && cardIds == freshIds
      && |flashcards| == |cards|
      && (forall i :: 0 <= i < |cards| ==> flashcards[i] == cards[i].(id := freshIds[i]))
      && db.cards.Keys == old(db.cards).Keys + (set x | x in freshIds)
      && (forall k :: k in old(db.cards) ==> db.cards[k] == old(db.cards)[k])
      && (forall i :: 0 <= i < |cards| ==> db.cards[freshIds[i]] == CardRecord(cards[i]))
    ensures db.collections == AttachCollections(old(db.collections), TargetId(req), freshIds, policy)
  {
    var cards := GenerateCards(req.userType, req.subject, req.location, up);
    var target := TargetId(req);
    if target !in db.collections {
      db.SetCollection(target, CollectionDoc(DisplayName(target), []));
    }
    flashcards, cardIds := SaveCards(db, cards, freshIds);
    var _ := db.UpdateUnion(target, cardIds);
    if policy == StripDefault && DefaultCollectionId in db.collections {
      var _ := db.UpdateRemove(DefaultCollectionId, cardIds);
    }
  }
}
