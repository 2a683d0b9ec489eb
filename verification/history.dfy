/**
  The capture history (`useHistory`): a list of at most ten captures, newest
  first, written through to browser storage.

  Adding a capture stamps it with the time, prepends it and, when the list
  then holds eleven entries, drops the oldest one, releasing its image when
  that image is an in-memory `blob:` URL. Clearing releases every `blob:`
  image and empties the list. Releasing a URL is reported as the multiset of
  URLs an operation revokes.

  Storage is an abstract snapshot: a missing key, a value that does not
  parse, or the list it last stored. A storage call that throws leaves the
  snapshot as it was and never changes the in-memory list.
*/
module History {

  /** `MAX_HISTORY_ITEMS`. */
  const MaxHistoryItems: nat := 10

  type Url = string

  /** One stored capture. */
  datatype Capture = Capture(id: string, image: Url, text: string, timestamp: int)

  /** The fields a caller of `addCapture` supplies; the time stamp is added. */
  datatype NewCapture = NewCapture(id: string, image: Url, text: string)

  /** What the storage key holds. */
  datatype Stored =
    | Missing                         // no item, or an empty string
    | Corrupt                         // an item that does not parse
    | Snapshot(entries: seq<Capture>) // the list last written

  /** Whether a storage call returned or threw. */
  datatype StorageOutcome = Completed | Threw

  /** The in-memory effect of one or more additions. */
  datatype Pushed = Pushed(entries: seq<Capture>, revoked: multiset<Url>)

  /** The effect of `addCapture` or `clearHistory`. */
  datatype Update = Update(history: seq<Capture>, revoked: multiset<Url>, stored: Stored)

  /** `image.startsWith('blob:')`. */
  predicate IsBlobUrl(u: Url) {
    "blob:" <= u
  }

  /** The revocation an entry's image calls for when it leaves the list. */
  function Release(u: Url): (m: multiset<Url>)
    ensures IsBlobUrl(u) ==> m == multiset{u}
    ensures !IsBlobUrl(u) ==> m == multiset{}
  {
    if IsBlobUrl(u) then multiset{u} else multiset{}
  }

  function Stamp(c: NewCapture, now: int): Capture {
    Capture(c.id, c.image, c.text, now)
  }

  /** The images of a list, in order. */
  function Images(h: seq<Capture>): (urls: seq<Url>)
    ensures |urls| == |h|
    ensures forall k :: 0 <= k < |h| ==> urls[k] == h[k].image
  {
    if h == [] then [] else [h[0].image] + Images(h[1..])
  }

  /** The `blob:` images of a list, each as often as it occurs. */
  function BlobImages(h: seq<Capture>): (m: multiset<Url>)
    ensures |m| <= |h|
    ensures forall u :: u in m ==> IsBlobUrl(u)
  {
    if h == [] then multiset{} else Release(h[0].image) + BlobImages(h[1..])
  }

  /** `BlobImages` counts every `blob:` URL as often as it is an image of
      the list, and holds nothing else. */
  lemma {:induction false} BlobImagesCounts(h: seq<Capture>, u: Url)
    ensures BlobImages(h)[u] == (if IsBlobUrl(u) then multiset(Images(h))[u] else 0)
    decreases |h|
  {
    if h != [] {
      assert Images(h) == [h[0].image] + Images(h[1..]);
      BlobImagesCounts(h[1..], u);
    }
  }

  lemma {:induction false} BlobImagesAppend(a: seq<Capture>, b: seq<Capture>)
    ensures BlobImages(a + b) == BlobImages(a) + BlobImages(b)
    decreases |a|
  {
    if a == [] {
      assert a + b == b;
    } else {
      assert (a + b)[1..] == a[1..] + b;
      BlobImagesAppend(a[1..], b);
    }
  }

  /** The in-memory part of `addCapture`: prepend, then drop the oldest entry
      if the list has grown past the cap. */
  function Push(h: seq<Capture>, entry: Capture): (p: Pushed)
    ensures |p.entries| > 0 && p.entries[0] == entry
    ensures |h| < MaxHistoryItems ==> p.entries == [entry] + h && p.revoked == multiset{}
    ensures |h| >= MaxHistoryItems ==>
              p.entries == [entry] + h[..|h| - 1] && p.revoked == Release(h[|h| - 1].image)
    ensures |h| <= MaxHistoryItems ==> |p.entries| <= MaxHistoryItems
    ensures |p.revoked| <= 1
    ensures forall u :: u in p.revoked ==> IsBlobUrl(u) && |h| >= MaxHistoryItems && u == h[|h| - 1].image
  {
    var grown := [entry] + h;
    if |grown| > MaxHistoryItems then
      var oldest := grown[|grown| - 1];
      assert oldest == h[|h| - 1];
      assert grown[..|grown| - 1] == [entry] + h[..|h| - 1];
      Pushed(grown[..|grown| - 1], Release(oldest.image))
    else
      Pushed(grown, multiset{})
  }

  /** `localStorage.setItem`: the new snapshot when the call returns, the old
      one when it throws. */
  function Persist(entries: seq<Capture>, stored: Stored, write: StorageOutcome): (st: Stored)
    ensures write == Completed ==> st == Snapshot(entries)
    ensures write == Threw ==> st == stored
  {
    if write == Completed then Snapshot(entries) else stored
  }

  /** `addCapture(c)` at time `now`. */
  function AddCapture(h: seq<Capture>, stored: Stored, c: NewCapture, now: int, write: StorageOutcome): (u: Update)
    ensures |u.history| > 0
    ensures u.history[0].id == c.id && u.history[0].image == c.image
    ensures u.history[0].text == c.text && u.history[0].timestamp == now
    ensures u.history[1..] == (if |h| < MaxHistoryItems then h else h[..|h| - 1])
    ensures u.revoked == (if |h| < MaxHistoryItems then multiset{} else Release(h[|h| - 1].image))
    ensures write == Completed ==> u.stored == Snapshot(u.history)
    ensures write == Threw ==> u.stored == stored
  {
    var p := Push(h, Stamp(c, now));
    Update(p.entries, p.revoked, Persist(p.entries, stored, write))
  }

  /** A failed write changes neither the list nor what is revoked. */
  lemma AddCaptureIgnoresWriteFailure(h: seq<Capture>, st1: Stored, st2: Stored, c: NewCapture, now: int)
    ensures AddCapture(h, st1, c, now, Threw).history == AddCapture(h, st2, c, now, Completed).history
    ensures AddCapture(h, st1, c, now, Threw).revoked == AddCapture(h, st2, c, now, Completed).revoked
  {
  }

  /** `clearHistory()`. */
  function ClearHistory(h: seq<Capture>, stored: Stored, remove: StorageOutcome): (u: Update)
    ensures u.history == []
    ensures forall url :: u.revoked[url] == (if IsBlobUrl(url) then multiset(Images(h))[url] else 0)
    ensures remove == Completed ==> u.stored == Missing
    ensures remove == Threw ==> u.stored == stored
  {
    forall url
      ensures BlobImages(h)[url] == (if IsBlobUrl(url) then multiset(Images(h))[url] else 0)
    {
      BlobImagesCounts(h, url);
    }
    Update([], BlobImages(h), if remove == Completed then Missing else stored)
  }

  /** The load on start-up: the stored list, or an empty one when the key is
      missing, the value does not parse, or reading throws. */
  function LoadHistory(stored: Stored, read: StorageOutcome): (h: seq<Capture>)
    ensures read == Threw ==> h == []
    ensures stored.Missing? || stored.Corrupt? ==> h == []
    ensures read == Completed && stored.Snapshot? ==> h == stored.entries
  {
    if read == Completed && stored.Snapshot? then stored.entries else []
  }

  /** What an addition stores is what a later load reads back. */
  lemma LoadAfterAdd(h: seq<Capture>, stored: Stored, c: NewCapture, now: int)
    ensures var u := AddCapture(h, stored, c, now, Completed); LoadHistory(u.stored, Completed) == u.history
  {
  }

  /** After a successful clear a later load yields an empty list. */
  lemma LoadAfterClear(h: seq<Capture>, stored: Stored)
    ensures LoadHistory(ClearHistory(h, stored, Completed).stored, Completed) == []
  {
  }

  // ---------------------------------------------------------------------
  // Many additions
  // ---------------------------------------------------------------------

  /** Newest first: time stamps never increase along the list. */
  predicate NewestFirst(h: seq<Capture>) {
    forall j, k :: 0 <= j < k < |h| ==> h[j].timestamp >= h[k].timestamp
  }

  /** An entry stamped no earlier than any other keeps the list newest
      first. */
  lemma PushKeepsNewestFirst(h: seq<Capture>, entry: Capture)
    requires NewestFirst(h)
    requires forall k :: 0 <= k < |h| ==> h[k].timestamp <= entry.timestamp
    ensures NewestFirst(Push(h, entry).entries)
  {
    var e := Push(h, entry).entries;
    forall j, k | 0 <= j < k < |e|
      ensures e[j].timestamp >= e[k].timestamp
    {
      assert e[k] == h[k - 1];
      if j > 0 {
        assert e[j] == h[j - 1];
      }
    }
  }

  /** The elements of `s`, last first. */
  function Reverse<T>(s: seq<T>): (r: seq<T>)
    ensures |r| == |s|
    ensures forall k :: 0 <= k < |s| ==> r[k] == s[|s| - 1 - k]
  {
    if s == [] then [] else [s[|s| - 1]] + Reverse(s[..|s| - 1])
  }

  /** The first `MaxHistoryItems` entries of a list. */
  function Window(all: seq<Capture>): (w: seq<Capture>)
    ensures |w| <= MaxHistoryItems || w == all
  {
    if |all| <= MaxHistoryItems then all else all[..MaxHistoryItems]
  }

  /** The entries beyond the first `MaxHistoryItems`. */
  function Overflow(all: seq<Capture>): (rest: seq<Capture>)
    ensures Window(all) + rest == all
  {
    if |all| <= MaxHistoryItems then [] else all[MaxHistoryItems..]
  }

  /** `Push` applied to each of `entries` in turn, oldest first. */
  function PushAll(h: seq<Capture>, entries: seq<Capture>): Pushed
    decreases |entries|
  {
    if entries == [] then Pushed(h, multiset{})
    else
      var before := PushAll(h, entries[..|entries| - 1]);
      var p := Push(before.entries, entries[|entries| - 1]);
      Pushed(p.entries, before.revoked + p.revoked)
  }

  /** `PushOntoWindow` while the list is below the cap: nothing overflows. */
  lemma PushOntoShortWindow(x: seq<Capture>, e: Capture)
    requires |x| < MaxHistoryItems
    ensures Push(Window(x), e).entries == Window([e] + x)
    ensures BlobImages(Overflow([e] + x)) == BlobImages(Overflow(x)) + Push(Window(x), e).revoked
  {
  }

  /** `PushOntoWindow` at the cap: the last entry of the window moves to the
      front of the overflow. */
  lemma PushOntoFullWindow(x: seq<Capture>, e: Capture)
    requires |x| >= MaxHistoryItems
    ensures Push(Window(x), e).entries == Window([e] + x)
    ensures BlobImages(Overflow([e] + x)) == BlobImages(Overflow(x)) + Push(Window(x), e).revoked
  {
    var w := x[..MaxHistoryItems];
    var last := x[MaxHistoryItems - 1];
    var y := [e] + x;
    assert Window(x) == w;
    assert Overflow(x) == x[MaxHistoryItems..];
    assert Window(y) == [e] + w[..MaxHistoryItems - 1] by {
      assert y[..MaxHistoryItems] == [e] + w[..MaxHistoryItems - 1];
    }
    assert Overflow(y) == [last] + Overflow(x) by {
      assert y[MaxHistoryItems..] == [last] + x[MaxHistoryItems..];
    }
    assert Push(w, e) == Pushed([e] + w[..MaxHistoryItems - 1], Release(last.image));
    BlobImagesAppend([last], Overflow(x));
    assert BlobImages([last]) == Release(last.image) by {
      assert [last][1..] == [];
    }
  }

  /** One addition to the window of `x`: the window of `[e] + x` results,
      and the image pushed out is the one new entry of the overflow. */
  lemma PushOntoWindow(x: seq<Capture>, e: Capture)
    ensures Push(Window(x), e).entries == Window([e] + x)
    ensures BlobImages(Overflow([e] + x)) == BlobImages(Overflow(x)) + Push(Window(x), e).revoked
  {
    if |x| < MaxHistoryItems {
      PushOntoShortWindow(x, e);
    } else {
      PushOntoFullWindow(x, e);
    }
  }

  /** After any number of additions to a list within the cap, the list holds
      the ten most recent captures, newest first, and exactly the `blob:`
      images of the captures pushed out have been revoked. */
  lemma {:induction false} PushAllKeepsNewestTen(h: seq<Capture>, entries: seq<Capture>)
    requires |h| <= MaxHistoryItems
    ensures PushAll(h, entries).entries == Window(Reverse(entries) + h)
    ensures PushAll(h, entries).revoked == BlobImages(Overflow(Reverse(entries) + h))
    decreases |entries|
  {
    if entries == [] {
      assert Reverse(entries) + h == h;
    } else {
      var older := entries[..|entries| - 1];
      var e := entries[|entries| - 1];
      PushAllKeepsNewestTen(h, older);
      var x := Reverse(older) + h;
      assert Reverse(entries) + h == [e] + x;
      PushOntoWindow(x, e);
    }
  }
}
