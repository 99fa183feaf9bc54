/** The standalone card page: a list of cards with removal by position. */
module FlashcardCollection {
  import opened Seqs

  /** The card shape of this page. */
  datatype FlashcardData = FlashcardData(question: string, answer: string, backgroundImage: string)

  /** `filter((_, i) => i !== index)` over a list whose first position is `start`. */
  function KeepOthers<T>(s: seq<T>, index: int, start: int): seq<T>
    decreases |s|
  {
    if s == [] then []
    else if start == index then KeepOthers(s[1..], index, start + 1)
    else [s[0]] + KeepOthers(s[1..], index, start + 1)
  }

  /**
   * `handleDelete`: removing an in-range position shortens the list by one,
   * keeps the cards before it in place and shifts the ones after it down;
   * an out-of-range position leaves the list as it was; the result is
   * always a subsequence.
   */
  function HandleDelete(cards: seq<FlashcardData>, index: int): (r: seq<FlashcardData>)
    ensures 0 <= index < |cards| ==>
      && |r| == |cards| - 1
      && (forall j :: 0 <= j < index ==> r[j] == cards[j])
      && (forall j :: index <= j < |r| ==> r[j] == cards[j + 1])
    ensures !(0 <= index < |cards|) ==> r == cards
    ensures IsSubsequence(r, cards)
  {
    KeepOthersShape(cards, index, 0);
    if 0 <= index < |cards| then
      SliceAroundIsSubsequence(cards, index);
      KeepOthers(cards, index, 0)
    else
      SubsequenceRefl(cards);
      KeepOthers(cards, index, 0)
  }

  lemma {:induction false} KeepOthersShape<T>(s: seq<T>, index: int, start: int)
    ensures start <= index < start + |s| ==> KeepOthers(s, index, start) == s[..index - start] + s[index - start + 1..]
    ensures !(start <= index < start + |s|) ==> KeepOthers(s, index, start) == s
    decreases |s|
  {
    if s != [] {
      var tail := s[1..];
      var rest := KeepOthers(tail, index, start + 1);
      KeepOthersShape(tail, index, start + 1);
      if start == index {
        assert KeepOthers(s, index, start) == rest;
        assert rest == tail;
        assert s[..0] + s[1..] == tail;
      } else {
        assert KeepOthers(s, index, start) == [s[0]] + rest;
        if start < index < start + |s| {
          var k := index - start;
          assert rest == tail[..k - 1] + tail[k..];
          assert s[..k] == [s[0]] + tail[..k - 1];
          assert s[k + 1..] == tail[k..];
        } else {
          assert rest == tail;
          assert s == [s[0]] + tail;
        }
      }
    }
  }

  lemma {:induction false} SliceAroundIsSubsequence<T(!new)>(s: seq<T>, i: nat)
    requires i < |s|
    ensures IsSubsequence(s[..i] + s[i + 1..], s)
    decreases i
  {
    if i == 0 {
      assert s[..0] + s[1..] == s[1..];
      SubsequenceRefl(s[1..]);
    } else {
      SliceAroundIsSubsequence(s[1..], i - 1);
      assert (s[..i] + s[i + 1..])[0] == s[0];
      assert (s[..i] + s[i + 1..])[1..] == s[1..][..i - 1] + s[1..][i..];
    }
  }
}
