/** `list_snapshots`: one page of the snapshot files that a pattern matched, and the token of the next page. */
module SnapshotPages {
  import opened Outcomes

  /** An image file in the listing; `creating` when its marker is there. */
  datatype Entry = Entry(snapshot: string, creating: bool) {
    predicate Matches(ready: Option<bool>) {
      ready.None? || ready.value != creating
    }
  }

  datatype Page = Page(data: seq<Entry>, token: Option<int>)

  /** Missing and zero mean the same; a negative offset skips nothing. */
  function Start(offset: Option<int>): nat {
    if offset.Some? && offset.value > 0 then offset.value else 0
  }

  /** The entry with which the page is full; without a limit, none is. A negative limit stops at the first. */
  predicate Full(limit: Option<int>, count: nat) {
    limit.Some? && limit.value != 0 && count >= limit.value
  }

  /** The matching entries at positions lo to hi. */
  function Matching(files: seq<Entry>, lo: nat, hi: nat, ready: Option<bool>): seq<Entry>
    requires hi <= |files|
  {
    if hi <= lo then []
    else
      var front := Matching(files, lo, hi - 1, ready);
      if files[hi - 1].Matches(ready) then front + [files[hi - 1]] else front
  }

  lemma {:induction false} AllMatch(files: seq<Entry>, lo: nat, hi: nat)
    requires lo <= hi <= |files|
    ensures Matching(files, lo, hi, None) == files[lo..hi]
  {
    if lo < hi {
      AllMatch(files, lo, hi - 1);
    }
  }

  /** The page shows the matching entries of files[start..end]. It ends with the entry that filled it, and not
      before the last file otherwise. */
  ghost predicate Shows(p: Page, files: seq<Entry>, start: nat, end: nat, limit: Option<int>, ready: Option<bool>) {
    && start <= end <= |files|
    && p.data == Matching(files, start, end, ready)
    && (|p.data| > 1 ==> !Full(limit, |p.data| - 1))
    && (end < |files| ==> p.data != [] && Full(limit, |p.data|) && files[end - 1].Matches(ready))
  }

  function Min(a: nat, b: nat): nat {
    if a < b then a else b
  }

  /** What a request gets, when `end` is how far the loop looked. */
  ghost predicate PageOf(p: Page, files: seq<Entry>, offset: Option<int>, limit: Option<int>, ready: Option<bool>,
                         end: nat) {
    && Shows(p, files, Min(Start(offset), |files|), end, limit, ready)
    && (p.token.Some? <==> offset.Some? && offset.value != 0 && p.data != [] && end < |files|)
    && (p.token.Some? ==> p.token.value == offset.value + |p.data|)
  }

  method List(files: seq<Entry>, offset: Option<int>, limit: Option<int>, ready: Option<bool>)
    returns (p: Page, end: nat)
    ensures PageOf(p, files, offset, limit, ready, end)
  {
    var data, count, idx := [], 0, 0;
    var i := 0;
    var start := Min(Start(offset), |files|);
    while i < |files|
      invariant i <= |files| && idx == (if i == 0 then 0 else i - 1) && count == |data|
      invariant i <= start ==> data == []
      invariant start <= i ==> data == Matching(files, start, i, ready)
      invariant data != [] ==> !Full(limit, |data|)
    {
      idx := i;
      i := i + 1;
      if offset.Some? && offset.value != 0 && idx < offset.value {
        continue;
      }
      if ready.Some? && ready.value == files[idx].creating {
        continue;
      }
      data := data + [files[idx]];
      count := count + 1;
      if limit.Some? && limit.value != 0 && count >= limit.value {
        break;
      }
    }
    end := i;
    var token := None;
    if offset.Some? && offset.value != 0 && data != [] && idx + 1 < |files| {
      token := Some(offset.value + |data|);
    }
    p := Page(data, token);
  }

  lemma {:induction false} MatchingHolds(files: seq<Entry>, lo: nat, hi: nat, ready: Option<bool>, e: Entry)
    requires hi <= |files|
    ensures e in Matching(files, lo, hi, ready) <==>
            && (exists i | lo <= i < hi :: files[i] == e)
            && (ready.Some? ==> e.creating != ready.value)
  {
    if lo < hi {
      MatchingHolds(files, lo, hi - 1, ready, e);
    }
  }

  /** What a page holds: the snapshots from the offset up to where it ends that are ready, or are not, if the request
      says so. A page without a limit ends with the last file; one with a limit holds no more than that, and one with
      a negative limit at most one entry. */
  lemma PageHolds(p: Page, files: seq<Entry>, offset: Option<int>, limit: Option<int>, ready: Option<bool>, end: nat,
                  e: Entry)
    requires PageOf(p, files, offset, limit, ready, end)
    ensures e in p.data <==>
            && (exists i | 0 <= i < end <= |files| && (offset.Some? ==> offset.value <= i) :: files[i] == e)
            && (ready == Some(true) ==> !e.creating)
            && (ready == Some(false) ==> e.creating)
    ensures limit.None? || limit.value == 0 ==> end == |files|
    ensures limit.Some? && limit.value > 0 ==> |p.data| <= limit.value
    ensures limit.Some? && limit.value < 0 ==> |p.data| <= 1
  {
    var start := Min(Start(offset), |files|);
    MatchingHolds(files, start, end, ready, e);
  }

  /** Without a filter and with a positive limit, a page is a slice. */
  lemma PageIsSlice(p: Page, files: seq<Entry>, start: nat, end: nat, limit: int)
    requires Shows(p, files, start, end, Some(limit), None) && limit > 0
    ensures end == Min(start + limit, |files|) && p.data == files[start..end]
  {
    AllMatch(files, start, end);
  }

  function Flatten(pages: seq<seq<Entry>>): seq<Entry> {
    if pages == [] then [] else Flatten(pages[..|pages| - 1]) + pages[|pages| - 1]
  }

  /** Following the tokens from any positive offset, with a positive limit, ends, and shows the rest of the list
      once. */
  method Follow(files: seq<Entry>, offset: int, limit: int) returns (pages: seq<seq<Entry>>)
    requires offset > 0 && limit > 0
    ensures Flatten(pages) == files[Min(offset, |files|)..]
    ensures pages != [] && FullPages(pages[..|pages| - 1], limit)
    ensures |pages| > 1 ==> pages[|pages| - 1] != []
  {
    var first := Min(offset, |files|);
    var token := Some(offset);
    ghost var seen := first;
    pages := [];
    while token.Some?
      invariant token.Some? ==> token.value > 0 && seen == Min(token.value, |files|)
      invariant if pages == [] then token.Some? else (token.Some? <==> seen < |files|)
      invariant first <= seen <= |files| && Flatten(pages) == files[first..seen]
      invariant token.Some? ==> FullPages(pages, limit)
      invariant token.None? ==> FullPages(pages[..|pages| - 1], limit)
      invariant |pages| > 1 ==> pages[|pages| - 1] != []
      decreases token.Some?, |files| - seen
    {
      var page, end := List(files, token, Some(limit), None);
      PageIsSlice(page, files, seen, end, limit);
      FlattenOneMore(pages, page.data, files, first, seen, end);
      pages := pages + [page.data];
      token, seen := page.token, end;
    }
    assert files[first..seen] == files[first..];
  }

  lemma {:induction false} FlattenOneMore(pages: seq<seq<Entry>>, page: seq<Entry>, files: seq<Entry>, lo: nat,
                                          mid: nat, hi: nat)
    requires lo <= mid <= hi <= |files| && Flatten(pages) == files[lo..mid] && page == files[mid..hi]
    ensures (pages + [page])[..|pages|] == pages
    ensures Flatten(pages + [page]) == files[lo..hi]
  {
    var more := pages + [page];
    assert more[..|more| - 1] == pages && more[|more| - 1] == page;
    SlicesJoin(files, lo, mid, hi);
  }

  lemma SlicesJoin(files: seq<Entry>, lo: nat, mid: nat, hi: nat)
    requires lo <= mid <= hi <= |files|
    ensures files[lo..mid] + files[mid..hi] == files[lo..hi]
  {
  }

  ghost predicate FullPages(pages: seq<seq<Entry>>, limit: int) {
    forall i | 0 <= i < |pages| :: |pages[i]| == limit
  }

  /** A request without a starting token gets none back. So its page is the whole list exactly when that fits. */
  lemma FirstPage(p: Page, files: seq<Entry>, limit: int, end: nat)
    requires limit > 0 && PageOf(p, files, None, Some(limit), None, end)
    ensures p.token.None? && p.data == files[..Min(limit, |files|)]
    ensures p.data == files <==> |files| <= limit
  {
    PageIsSlice(p, files, 0, end, limit);
    assert files[0..end] == files[..end];
  }

  lemma {:induction false} AllOrFewer(files: seq<Entry>, lo: nat, hi: nat, ready: Option<bool>)
    requires lo <= hi <= |files|
    ensures |Matching(files, lo, hi, ready)| <= hi - lo
    ensures |Matching(files, lo, hi, ready)| == hi - lo <==> forall i | lo <= i < hi :: files[i].Matches(ready)
  {
    if lo < hi {
      AllOrFewer(files, lo, hi - 1, ready);
    }
  }

  /** With a filter, the token names the first file not looked at exactly when the filter skipped nothing and the
      offset was not negative. */
  lemma TokenIsRight(p: Page, files: seq<Entry>, offset: int, limit: Option<int>, ready: Option<bool>, end: nat)
    requires offset <= |files| && PageOf(p, files, Some(offset), limit, ready, end) && p.token.Some?
    ensures p.token.value == end <==> offset > 0 && forall i | offset <= i < end :: files[i].Matches(ready)
  {
    AllOrFewer(files, Start(Some(offset)), end, ready);
  }
}
