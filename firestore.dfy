/**
 * One user's document namespace for one persona: the `{persona}_collections`
 * documents and the `{persona}_cards` documents, with the write primitives
 * the handlers use. `updateDoc` on a missing document fails; `setDoc`
 * creates or overwrites; `deleteDoc` of a missing document succeeds;
 * `addDoc` stores under an id the store chooses, given here as a parameter.
 */
module Firestore {
  import opened Seqs

  /** `{persona}_collections/{id}`: display name and the listed card ids. */
  datatype CollectionDoc = CollectionDoc(collectionName: string, cards: seq<string>)

  /** `{persona}_cards/{id}`. */
  datatype CardDoc = CardDoc(question: string, answer: string, picture: string)

  /** The distinguished landing collection for generated cards. */
  const DefaultCollectionId: string := "default"

  /** The collections after `updateDoc(id, {cards: arrayUnion(...xs)})`; unchanged when `id` is missing. */
  function UnionInto(m: map<string, CollectionDoc>, id: string, xs: seq<string>): (r: map<string, CollectionDoc>)
    ensures r.Keys == m.Keys
    ensures id in m ==> r[id] == m[id].(cards := AppendMissing(m[id].cards, xs))
    ensures forall k :: k in m && k != id ==> r[k] == m[k]
  {
    if id in m then m[id := m[id].(cards := AppendMissing(m[id].cards, xs))] else m
  }

  /** The collections after `updateDoc(id, {cards: arrayRemove(...xs)})`; unchanged when `id` is missing. */
  function RemoveFrom(m: map<string, CollectionDoc>, id: string, xs: seq<string>): (r: map<string, CollectionDoc>)
    ensures r.Keys == m.Keys
    ensures id in m ==> r[id] == m[id].(cards := RemoveAll(m[id].cards, xs))
    ensures forall k :: k in m && k != id ==> r[k] == m[k]
  {
    if id in m then m[id := m[id].(cards := RemoveAll(m[id].cards, xs))] else m
  }

  class Namespace {
    var collections: map<string, CollectionDoc>
    var cards: map<string, CardDoc>

    constructor (collections: map<string, CollectionDoc>, cards: map<string, CardDoc>)
      ensures this.collections == collections && this.cards == cards
    {
      this.collections := collections;
      this.cards := cards;
    }

    /** `setDoc`: the whole document is written, created if absent. */
    method SetCollection(id: string, doc: CollectionDoc)
      modifies this
      ensures collections == old(collections)[id := doc] && cards == old(cards)
    {
      collections := collections[id := doc];
    }

    /** `addDoc` on the collections: the document lands under a new id. */
    method AddCollection(freshId: string, doc: CollectionDoc) returns (id: string)
      requires freshId !in collections
      modifies this
      ensures id == freshId && collections == old(collections)[id := doc] && cards == old(cards)
    {
      id := freshId;
      collections := collections[id := doc];
    }

    /** `updateDoc` with `arrayUnion`; `ok` is false (the call throws) when the document is missing. */
    method UpdateUnion(id: string, xs: seq<string>) returns (ok: bool)
      modifies this
      ensures ok == (id in old(collections))
      ensures collections == UnionInto(old(collections), id, xs) && cards == old(cards)
    {
      ok := id in collections;
      collections := UnionInto(collections, id, xs);
    }

    /** `updateDoc` with `arrayRemove`; `ok` is false (the call throws) when the document is missing. */
    method UpdateRemove(id: string, xs: seq<string>) returns (ok: bool)
      modifies this
      ensures ok == (id in old(collections))
      ensures collections == RemoveFrom(old(collections), id, xs) && cards == old(cards)
    {
      ok := id in collections;
      collections := RemoveFrom(collections, id, xs);
    }

    /** `deleteDoc` of a collection document. */
    method DeleteCollection(id: string)
      modifies this
      ensures collections == old(collections) - {id} && cards == old(cards)
    {
      collections := collections - {id};
    }

    /** `addDoc` on the cards. */
    method AddCard(freshId: string, doc: CardDoc) returns (id: string)
      requires freshId !in cards
      modifies this
      ensures id == freshId && cards == old(cards)[id := doc] && collections == old(collections)
    {
      id := freshId;
      cards := cards[id := doc];
    }

    /** A committed `writeBatch` of card deletions, one step. */
    method DeleteCards(ids: seq<string>)
      modifies this
      ensures cards == old(cards) - (set x | x in ids) && collections == old(collections)
    {
      cards := cards - (set x | x in ids);
    }
  }
}
