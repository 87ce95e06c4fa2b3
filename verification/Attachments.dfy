/** The list of pending image attachments shown as thumbnails above the input.
    Attachments are only ever appended (`addImages`) or filtered out by id
    (`handleRemoveImage`); neither changes an entry in place.
 */
module Attachments {

  /** A pending image. The component builds `id` from the uri, the current
      time and a random suffix; here it is supplied by the caller. */
  datatype Attachment = Attachment(id: string, uri: string)

  /** The uris of a list of attachments, in list order. */
  function Uris(images: seq<Attachment>): (us: seq<string>)
    ensures |us| == |images|
  {
    if |images| == 0 then [] else [images[0].uri] + Uris(images[1..])
  }

  /** The ids in use. */
  function Ids(images: seq<Attachment>): set<string> {
    set i | 0 <= i < |images| :: images[i].id
  }

  /** No two entries share an id. */
  predicate UniqueIds(images: seq<Attachment>) {
    forall i, j :: 0 <= i < j < |images| ==> images[i].id != images[j].id
  }

  /** How many entries carry `id`. */
  function Occurrences(images: seq<Attachment>, id: string): nat {
    if |images| == 0 then 0
    else (if images[0].id == id then 1 else 0) + Occurrences(images[1..], id)
  }

  /** `a` keeps some of the entries of `b`, in the order `b` has them. */
  predicate IsSubsequence<T(==)>(a: seq<T>, b: seq<T>)
    decreases |b|
  {
    if |a| == 0 then true
    else if |b| == 0 then false
    else if a[0] == b[0] then IsSubsequence(a[1..], b[1..])
    else IsSubsequence(a, b[1..])
  }

  // ---------------------------------------------------------------------------
  // addImages
  // ---------------------------------------------------------------------------

  /** `uris.map(uri => ({ id, uri }))`, one fresh id per uri. */
  function NewImages(uris: seq<string>, ids: seq<string>): (r: seq<Attachment>)
    requires |ids| == |uris|
    ensures |r| == |uris|
    ensures Uris(r) == uris
  {
    if |uris| == 0 then []
    else [Attachment(ids[0], uris[0])] + NewImages(uris[1..], ids[1..])
  }

  lemma {:induction false} UrisAppend(a: seq<Attachment>, b: seq<Attachment>)
    ensures Uris(a + b) == Uris(a) + Uris(b)
  {
    if |a| > 0 {
      assert (a + b)[1..] == a[1..] + b;
      UrisAppend(a[1..], b);
    } else {
      assert a + b == b;
    }
  }

  /** addImages: the existing entries are kept unchanged and in place, and the
      uri list grows by exactly the input uris, in input order, each entry
      carrying the id supplied for it. */
  function AddImages(prev: seq<Attachment>, uris: seq<string>, ids: seq<string>): (r: seq<Attachment>)
    requires |ids| == |uris|
    ensures |r| == |prev| + |uris|
    ensures r[..|prev|] == prev
    ensures Uris(r) == Uris(prev) + uris
    ensures forall i :: 0 <= i < |uris| ==> r[|prev| + i] == Attachment(ids[i], uris[i])
  {
    var added := NewImages(uris, ids);
    UrisAppend(prev, added);
    NewImagesIds(uris, ids);
    assert (prev + added)[..|prev|] == prev;
    prev + added
  }

  lemma {:induction false} NewImagesIds(uris: seq<string>, ids: seq<string>)
    requires |ids| == |uris|
    ensures forall i :: 0 <= i < |uris| ==> NewImages(uris, ids)[i] == Attachment(ids[i], uris[i])
  {
    if |uris| > 0 {
      NewImagesIds(uris[1..], ids[1..]);
      var r := NewImages(uris, ids);
      forall i | 0 <= i < |uris|
        ensures r[i] == Attachment(ids[i], uris[i])
      {
        if i > 0 {
          assert r[i] == NewImages(uris[1..], ids[1..])[i - 1];
        }
      }
    }
  }

  // ---------------------------------------------------------------------------
  // handleRemoveImage
  // ---------------------------------------------------------------------------

  /** `prev.filter(img => img.id !== idToRemove)`: an entry survives exactly
      when it was present and carries another id, and the list shrinks by the
      number of entries carrying the id. */
  function RemoveImage(prev: seq<Attachment>, id: string): (r: seq<Attachment>)
    ensures |r| == |prev| - Occurrences(prev, id)
    ensures forall a :: a in r <==> a in prev && a.id != id
  {
    if |prev| == 0 then []
    else
      var rest := RemoveImage(prev[1..], id);
      assert prev == [prev[0]] + prev[1..];
      if prev[0].id == id then rest
      else
        var r := [prev[0]] + rest;
        assert r[1..] == rest;
        r
  }

  /** The filter keeps multiplicities and order: no entry carrying the id is
      left, every other entry occurs as often as before, and the survivors
      appear in the order the list had them. */
  lemma {:induction false} RemoveKeepsOthers(prev: seq<Attachment>, id: string)
    ensures forall a: Attachment :: a.id == id ==> multiset(RemoveImage(prev, id))[a] == 0
    ensures forall a: Attachment :: a.id != id ==> multiset(RemoveImage(prev, id))[a] == multiset(prev)[a]
    ensures IsSubsequence(RemoveImage(prev, id), prev)
  {
    if |prev| > 0 {
      var rest := RemoveImage(prev[1..], id);
      RemoveKeepsOthers(prev[1..], id);
      assert prev == [prev[0]] + prev[1..];
      assert multiset(prev) == multiset{prev[0]} + multiset(prev[1..]);
      if prev[0].id == id {
        SubsequenceDropFront(rest, prev);
      } else {
        var r := [prev[0]] + rest;
        assert r[1..] == rest;
        assert multiset(r) == multiset{prev[0]} + multiset(rest);
      }
    }
  }

  /** A subsequence of the tail is a subsequence of the whole list. */
  lemma {:induction false} SubsequenceDropFront<T>(a: seq<T>, b: seq<T>)
    requires |b| > 0 && IsSubsequence(a, b[1..])
    ensures IsSubsequence(a, b)
    decreases |b|, 0
  {
    if |a| > 0 && a[0] == b[0] {
      SubsequenceTail(a, b[1..]);
    }
  }

  /** Dropping the first element keeps a subsequence a subsequence. */
  lemma {:induction false} SubsequenceTail<T>(a: seq<T>, b: seq<T>)
    requires |a| > 0 && IsSubsequence(a, b)
    ensures IsSubsequence(a[1..], b)
    decreases |b|, 1
  {
    if a[0] == b[0] {
      SubsequenceDropFront(a[1..], b);
    } else {
      SubsequenceTail(a, b[1..]);
      SubsequenceDropFront(a[1..], b);
    }
  }

  /** Removing the same id twice is the same as removing it once. */
  lemma {:induction false} RemoveIdempotent(prev: seq<Attachment>, id: string)
    ensures RemoveImage(RemoveImage(prev, id), id) == RemoveImage(prev, id)
  {
    if |prev| > 0 {
      RemoveIdempotent(prev[1..], id);
      var rest := RemoveImage(prev[1..], id);
      if prev[0].id != id {
        assert ([prev[0]] + rest)[1..] == rest;
      }
    }
  }

  /** An id that no entry carries occurs zero times. */
  lemma {:induction false} OccurrencesAbsent(images: seq<Attachment>, id: string)
    requires id !in Ids(images)
    ensures Occurrences(images, id) == 0
  {
    if |images| > 0 {
      assert Ids(images[1..]) <= Ids(images) by {
        forall x | x in Ids(images[1..]) ensures x in Ids(images) {
          var i :| 0 <= i < |images[1..]| && images[1..][i].id == x;
          assert images[i + 1].id == x;
        }
      }
      assert images[0].id in Ids(images);
      OccurrencesAbsent(images[1..], id);
    }
  }

  /** With unique ids, a present id occurs exactly once, so removing it takes
      exactly one entry off the list. */
  lemma {:induction false} RemoveUniqueTakesOne(prev: seq<Attachment>, id: string)
    requires UniqueIds(prev) && id in Ids(prev)
    ensures |RemoveImage(prev, id)| == |prev| - 1
    ensures Occurrences(prev, id) == 1
  {
    var tail := prev[1..];
    assert UniqueIds(tail) by {
      forall i, j | 0 <= i < j < |tail| ensures tail[i].id != tail[j].id {
        assert tail[i] == prev[i + 1] && tail[j] == prev[j + 1];
      }
    }
    if prev[0].id == id {
      assert id !in Ids(tail) by {
        forall i | 0 <= i < |tail| ensures tail[i].id != id {
          assert tail[i] == prev[i + 1];
        }
      }
      OccurrencesAbsent(tail, id);
    } else {
      var i :| 0 <= i < |prev| && prev[i].id == id;
      assert tail[i - 1].id == id;
      RemoveUniqueTakesOne(tail, id);
    }
  }

  // ---------------------------------------------------------------------------
  // Id uniqueness is kept when the supplied ids are fresh
  // ---------------------------------------------------------------------------

  /** Fresh ids for `addImages`: pairwise distinct and unused so far. The
      component only makes a collision unlikely; it does not rule it out. */
  predicate FreshIds(prev: seq<Attachment>, ids: seq<string>) {
    && (forall i, j :: 0 <= i < j < |ids| ==> ids[i] != ids[j])
    && (forall i :: 0 <= i < |ids| ==> ids[i] !in Ids(prev))
  }

  lemma AddKeepsUnique(prev: seq<Attachment>, uris: seq<string>, ids: seq<string>)
    requires |ids| == |uris|
    requires UniqueIds(prev) && FreshIds(prev, ids)
    ensures UniqueIds(AddImages(prev, uris, ids))
  {
    var r := AddImages(prev, uris, ids);
    var n := |prev|;
    forall i, j | 0 <= i < j < |r|
      ensures r[i].id != r[j].id
    {
      if j >= n {
        assert r[j].id == ids[j - n];
        if i < n {
          assert r[i] == prev[i];
          assert prev[i].id in Ids(prev);
        } else {
          assert r[i].id == ids[i - n];
        }
      } else {
        assert r[i] == prev[i] && r[j] == prev[j];
      }
    }
  }

  /** Under unique ids the tail is unique and carries no id of the head. */
  lemma UniqueTail(images: seq<Attachment>)
    requires |images| > 0 && UniqueIds(images)
    ensures UniqueIds(images[1..])
    ensures forall a :: a in images[1..] ==> a.id != images[0].id
  {
    var tail := images[1..];
    forall i, j | 0 <= i < j < |tail| ensures tail[i].id != tail[j].id {
      assert tail[i] == images[i + 1] && tail[j] == images[j + 1];
    }
    forall a | a in tail ensures a.id != images[0].id {
      var i :| 0 <= i < |tail| && tail[i] == a;
      assert images[i + 1] == a;
    }
  }

  /** An entry whose id the list does not carry can go in front of it. */
  lemma UniqueCons(x: Attachment, s: seq<Attachment>)
    requires UniqueIds(s)
    requires forall a :: a in s ==> a.id != x.id
    ensures UniqueIds([x] + s)
  {
    var r := [x] + s;
    forall i, j | 0 <= i < j < |r| ensures r[i].id != r[j].id {
      assert r[j] == s[j - 1];
      if i > 0 {
        assert r[i] == s[i - 1];
      }
    }
  }

  lemma {:induction false} RemoveKeepsUnique(prev: seq<Attachment>, id: string)
    requires UniqueIds(prev)
    ensures UniqueIds(RemoveImage(prev, id))
  {
    if |prev| > 0 {
      UniqueTail(prev);
      RemoveKeepsUnique(prev[1..], id);
      var rest := RemoveImage(prev[1..], id);
      if prev[0].id != id {
        UniqueCons(prev[0], rest);
      }
    }
  }
}
