/** Listing cache entries page by page with offset cursors. Go strings are bytes, so
    keys, filters and cursors are too. */
module Pagination {
  import opened Bytes

  datatype CacheEntry = CacheEntry(key: bytes, sizeBytes: int, expiresAt: Option<int>)

  datatype Page = Page(entries: seq<CacheEntry>, nextCursor: bytes, hasMore: bool)

  // ---------------------------------------------------------------- white space

  /** One encoded white-space character, as `unicode.IsSpace` knows them. */
  predicate IsSpace(s: bytes): (r: bool)
    ensures r ==> |s| > 0 && !IsDigit(s[0])
  {
    || (|s| == 1 && (9 <= s[0] <= 13 || s[0] == 32))
    || (|s| == 2 && s[0] == 0xC2 && (s[1] == 0x85 || s[1] == 0xA0))
    || (|s| == 3 && s[0] == 0xE1 && s[1] == 0x9A && s[2] == 0x80)
    || (|s| == 3 && s[0] == 0xE2 && s[1] == 0x80
       && (0x80 <= s[2] <= 0x8A || s[2] == 0xA8 || s[2] == 0xA9 || s[2] == 0xAF))
    || (|s| == 3 && s[0] == 0xE2 && s[1] == 0x81 && s[2] == 0x9F)
    || (|s| == 3 && s[0] == 0xE3 && s[1] == 0x80 && s[2] == 0x80)
  }

  /** The length of the white-space character that starts at `i`, if one does. */
  function SpaceAt(s: bytes, i: nat): (n: nat)
    requires i <= |s|
    ensures i + n <= |s| && n <= 3 && (n > 0 ==> IsSpace(s[i..i + n]))
  {
    if i + 1 <= |s| && IsSpace(s[i..i + 1]) then 1
    else if i + 2 <= |s| && IsSpace(s[i..i + 2]) then 2
    else if i + 3 <= |s| && IsSpace(s[i..i + 3]) then 3
    else 0
  }

  /** The length of the one that ends at `j`, not beginning before `i`. */
  function SpaceBefore(s: bytes, i: nat, j: nat): (n: nat)
    requires i <= j <= |s|
    ensures n <= j - i && n <= 3 && (n > 0 ==> IsSpace(s[j - n..j]))
  {
    if i + 1 <= j && IsSpace(s[j - 1..j]) then 1
    else if i + 2 <= j && IsSpace(s[j - 2..j]) then 2
    else if i + 3 <= j && IsSpace(s[j - 3..j]) then 3
    else 0
  }

  function SkipRight(s: bytes, i: nat): (r: nat)
    requires i <= |s|
    ensures i <= r <= |s|
    decreases |s| - i
  {
    var n := SpaceAt(s, i);
    if n > 0 then SkipRight(s, i + n) else i
  }

  function SkipLeft(s: bytes, i: nat, j: nat): (r: nat)
    requires i <= j <= |s|
    ensures i <= r <= j
  {
    var n := SpaceBefore(s, i, j);
    if n > 0 then SkipLeft(s, i, j - n) else j
  }

  function TrimSpace(s: bytes): bytes {
    var i := SkipRight(s, 0);
    s[i..SkipLeft(s, i, |s|)]
  }

  /** The white-space characters, encoded: U+0009 to U+000D, U+0020, U+0085, U+00A0, U+1680,
      U+2000 to U+200A, U+2028, U+2029, U+202F, U+205F and U+3000. */
  predicate IsSpaceText(s: bytes) {
    || s in {[9], [10], [11], [12], [13], [32], [194, 133], [194, 160], [225, 154, 128]}
    || s in {[226, 128, 128], [226, 128, 129], [226, 128, 130], [226, 128, 131], [226, 128, 132], [226, 128, 133]}
    || s in {[226, 128, 134], [226, 128, 135], [226, 128, 136], [226, 128, 137], [226, 128, 138]}
    || s in {[226, 128, 168], [226, 128, 169], [226, 128, 175], [226, 129, 159], [227, 128, 128]}
  }

  lemma SpacesWrittenOut(s: bytes)
    ensures IsSpace(s) <==> IsSpaceText(s)
  {
    if |s| == 1 {
      assert s == [s[0]];
    } else if |s| == 2 {
      assert s == [s[0], s[1]];
    } else if |s| == 3 {
      assert s == [s[0], s[1], s[2]];
    }
  }

  /** From `i` to `j` there are white-space characters and nothing else. */
  ghost predicate Spaces(s: bytes, i: nat, j: nat)
    requires i <= j <= |s|
    decreases j - i
  {
    i == j || exists m: nat :: SpaceSpans(s, i, m, j) && Spaces(s, m, j)
  }

  ghost predicate SpaceSpans(s: bytes, i: nat, m: nat, j: nat)
    requires i <= j <= |s|
  {
    i < m <= j && IsSpaceText(s[i..m])
  }

  lemma {:induction false} SkipsSpace(s: bytes, i: nat)
    requires i <= |s|
    ensures Spaces(s, i, SkipRight(s, i)) && SpaceAt(s, SkipRight(s, i)) == 0
    decreases |s| - i
  {
    var n := SpaceAt(s, i);
    if n == 0 {
    } else {
      SkipsSpace(s, i + n);
      SpacesWrittenOut(s[i..i + n]);
      assert SpaceSpans(s, i, i + n, SkipRight(s, i));
    }
  }

  lemma {:induction false} SpacesAppend(s: bytes, i: nat, m: nat, j: nat)
    requires i <= m < j <= |s| && Spaces(s, i, m) && IsSpaceText(s[m..j])
    ensures Spaces(s, i, j)
    decreases m - i
  {
    if i == m {
      assert SpaceSpans(s, i, j, j) && Spaces(s, j, j);
    } else {
      var l: nat :| SpaceSpans(s, i, l, m) && Spaces(s, l, m);
      SpacesAppend(s, l, m, j);
      assert SpaceSpans(s, i, l, j);
    }
  }

  lemma {:induction false} SkipsSpaceBack(s: bytes, i: nat, j: nat)
    requires i <= j <= |s|
    ensures Spaces(s, SkipLeft(s, i, j), j) && SpaceBefore(s, i, SkipLeft(s, i, j)) == 0
    decreases j
  {
    var n := SpaceBefore(s, i, j);
    if n == 0 {
    } else {
      SkipsSpaceBack(s, i, j - n);
      SpacesWrittenOut(s[j - n..j]);
      SpacesAppend(s, SkipLeft(s, i, j - n), j - n, j);
    }
  }

  /** No white-space character starts at `i` or ends at `j`. */
  ghost predicate Bare(s: bytes, i: nat, j: nat)
    requires i <= j <= |s|
  {
    && (forall m :: i < m <= j ==> !IsSpaceText(s[i..m]))
    && (forall m :: i <= m < j ==> !IsSpaceText(s[m..j]))
  }

  lemma NoSpaceStarts(s: bytes, i: nat, m: nat)
    requires i < m <= |s| && SpaceAt(s, i) == 0
    ensures !IsSpaceText(s[i..m])
  {
    SpacesWrittenOut(s[i..m]);
    assert m - i > 3 ==> !IsSpace(s[i..m]);
    assert m == i + 1 || m == i + 2 || m == i + 3 || m - i > 3;
  }

  lemma NoSpaceEnds(s: bytes, i: nat, m: nat, j: nat)
    requires i <= m < j <= |s| && SpaceBefore(s, i, j) == 0
    ensures !IsSpaceText(s[m..j])
  {
    SpacesWrittenOut(s[m..j]);
    assert j - m > 3 ==> !IsSpace(s[m..j]);
    assert m == j - 1 || m == j - 2 || m == j - 3 || j - m > 3;
  }

  lemma BareBetween(s: bytes, i: nat, j: nat)
    requires i <= j <= |s| && SpaceAt(s, i) == 0 && SpaceBefore(s, i, j) == 0
    ensures Bare(s, i, j)
  {
    forall m | i < m <= j
      ensures !IsSpaceText(s[i..m])
    {
      NoSpaceStarts(s, i, m);
    }
    forall m | i <= m < j
      ensures !IsSpaceText(s[m..j])
    {
      NoSpaceEnds(s, i, m, j);
    }
  }

  /** `strings.TrimSpace`: white-space characters go from both ends, nothing else does, and no
      such character is left there. */
  lemma TrimTakesSpace(s: bytes) returns (i: nat, j: nat)
    ensures i <= j <= |s| && TrimSpace(s) == s[i..j] && Spaces(s, 0, i) && Spaces(s, j, |s|) && Bare(s, i, j)
  {
    i := SkipRight(s, 0);
    j := SkipLeft(s, i, |s|);
    SkipsSpace(s, 0);
    SkipsSpaceBack(s, i, |s|);
    BareBetween(s, i, j);
  }

  // -------------------------------------------------------------------- cursors

  const DEFAULT_LIMIT := 100
  const MAX_LIMIT := 500

  function NormalizeListLimit(limit: int): (r: int)
    ensures 1 <= r <= 500
    ensures 1 <= limit <= 500 ==> r == limit
    ensures limit > 500 ==> r == 500
    ensures limit <= 0 ==> r == 100
  {
    if limit <= 0 then DEFAULT_LIMIT else if limit > MAX_LIMIT then MAX_LIMIT else limit
  }

  function DecodeOffsetCursor(cursor: bytes): (r: Option<int>)
    ensures r.Some? ==> r.value >= 0
  {
    var text := TrimSpace(cursor);
    if text == [] then Some(0)
    else
      var n := ParseInt(text);
      if n == None || n.value < 0 then None else n
  }

  function EncodeOffsetCursor(offset: int): bytes {
    if offset <= 0 then [] else FormatInt(offset)
  }

  lemma DigitIsNoSpace(s: bytes)
    requires s != [] && IsDigit(s[0])
    ensures !IsSpace(s)
  {
  }

  lemma DigitsAreTrimmed(s: bytes)
    requires AllDigits(s)
    ensures TrimSpace(s) == s
  {
    forall i, j | 0 <= i < j <= |s|
      ensures !IsSpace(s[i..j])
    {
      DigitIsNoSpace(s[i..j]);
    }
    assert SpaceAt(s, 0) == 0 && SpaceBefore(s, 0, |s|) == 0;
    assert s[0..|s|] == s;
  }

  /** A cursor decodes to the offset it was made from; what is not positive starts over. */
  lemma CursorRoundTrip(offset: int)
    requires IsInt64(offset)
    ensures DecodeOffsetCursor(EncodeOffsetCursor(offset)) == Some(if offset <= 0 then 0 else offset)
  {
    if offset > 0 {
      DigitsAreTrimmed(Digits(offset));
      ParseFormat(offset);
    } else {
      DigitsAreTrimmed([]);
    }
  }

  /** Exactly which cursors are refused: trimmed, they are neither empty nor a number, or a
      negative one. */
  lemma CursorRefused(cursor: bytes)
    ensures DecodeOffsetCursor(cursor) == None <==>
              && TrimSpace(cursor) != []
              && (ParseInt(TrimSpace(cursor)) == None || ParseInt(TrimSpace(cursor)).value < 0)
  {
  }

  // ------------------------------------------------------------------- ordering

  /** Go's string order. */
  predicate Less(a: bytes, b: bytes) {
    b != [] && (a == [] || a[0] < b[0] || (a[0] == b[0] && Less(a[1..], b[1..])))
  }

  lemma {:induction false} LessIsTotal(a: bytes, b: bytes)
    requires !Less(a, b) && !Less(b, a)
    ensures a == b
  {
    if a == [] || b == [] {
    } else {
      LessIsTotal(a[1..], b[1..]);
      assert a == [a[0]] + a[1..] && b == [b[0]] + b[1..];
    }
  }

  lemma {:induction false} NotLessIsTransitive(a: bytes, b: bytes, c: bytes)
    requires !Less(b, a) && !Less(c, b)
    ensures !Less(c, a)
  {
    if a != [] && b != [] && c != [] && a[0] == b[0] == c[0] {
      NotLessIsTransitive(a[1..], b[1..], c[1..]);
    }
  }

  lemma {:induction false} LessIsAsymmetric(a: bytes, b: bytes)
    requires Less(a, b)
    ensures !Less(b, a)
  {
    if a != [] && a[0] == b[0] {
      LessIsAsymmetric(a[1..], b[1..]);
    }
  }

  /** What that order is: the first difference decides, and a proper prefix comes first. */
  lemma {:induction false} LessMeans(a: bytes, b: bytes)
    ensures Less(a, b) <==>
              exists i: nat :: i <= |a| && i < |b| && a[..i] == b[..i] && (i == |a| || a[i] < b[i])
  {
    if b == [] || a == [] || a[0] != b[0] {
      if b != [] && (a == [] || a[0] < b[0]) {
        assert a[..0] == b[..0];
      }
      if i: nat :| i <= |a| && i < |b| && a[..i] == b[..i] && (i == |a| || a[i] < b[i]) {
        assert i > 0 ==> a[..i][0] == b[..i][0];
      }
    } else {
      LessMeans(a[1..], b[1..]);
      if Less(a[1..], b[1..]) {
        var i: nat :| && i <= |a[1..]| && i < |b[1..]| && a[1..][..i] == b[1..][..i]
                      && (i == |a[1..]| || a[1..][i] < b[1..][i]);
        FirstDifferenceLater(a, b, i);
      }
      if i: nat :| i <= |a| && i < |b| && a[..i] == b[..i] && (i == |a| || a[i] < b[i]) {
        assert i > 0;
        var j := i - 1;
        assert a[1..][..j] == a[..i][1..] && b[1..][..j] == b[..i][1..];
        assert j == |a[1..]| || a[1..][j] < b[1..][j];
      }
    }
  }

  lemma FirstDifferenceLater(a: bytes, b: bytes, i: nat)
    requires a != [] && b != [] && a[0] == b[0] && i < |a| && i + 1 < |b| && a[1..][..i] == b[1..][..i]
    ensures a[..i + 1] == b[..i + 1]
  {
    assert a[..i + 1] == [a[0]] + a[1..][..i] && b[..i + 1] == [b[0]] + b[1..][..i];
  }

  predicate Ordered(es: seq<CacheEntry>) {
    forall i, j :: 0 <= i < j < |es| ==> !Less(es[j].key, es[i].key)
  }

  // ------------------------------------------------------------------ filtering

  predicate Contains(s: bytes, sub: bytes) {
    exists i :: 0 <= i <= |s| && HasPrefix(s[i..], sub)
  }

  /** Anywhere in the key. */
  lemma ContainsMeans(s: bytes, sub: bytes)
    ensures Contains(s, sub) <==> exists a: bytes, b: bytes :: s == a + sub + b
  {
    if Contains(s, sub) {
      var i :| 0 <= i <= |s| && HasPrefix(s[i..], sub);
      assert s == s[..i] + sub + s[i + |sub|..];
    }
    if a: bytes, b: bytes :| s == a + sub + b {
      assert s[|a|..] == sub + b && (sub + b)[..|sub|] == sub;
    }
  }

  predicate Matches(e: CacheEntry, filter: bytes) {
    filter == [] || Contains(e.key, filter)
  }

  function Matching(es: seq<CacheEntry>, filter: bytes): seq<CacheEntry> {
    if es == [] then []
    else
      var last := es[|es| - 1];
      Matching(es[..|es| - 1], filter) + if Matches(last, filter) then [last] else []
  }

  lemma CountsLast(es: seq<CacheEntry>, e: CacheEntry)
    requires es != []
    ensures multiset(es)[e] == multiset(es[..|es| - 1])[e] + if es[|es| - 1] == e then 1 else 0
  {
    assert es == es[..|es| - 1] + [es[|es| - 1]];
  }

  lemma {:induction false} MatchingCounts(es: seq<CacheEntry>, filter: bytes, e: CacheEntry)
    ensures multiset(Matching(es, filter))[e] == if Matches(e, filter) then multiset(es)[e] else 0
  {
    if es == [] {
    } else {
      MatchingCounts(es[..|es| - 1], filter, e);
      CountsLast(es, e);
    }
  }

  /** What a filtered, sorted listing has to be: the matching entries, in key order. */
  ghost predicate IsListing(r: seq<CacheEntry>, es: seq<CacheEntry>, filter: bytes) {
    Ordered(r) && multiset(r) == multiset(Matching(es, TrimSpace(filter)))
  }

  /** In order but for the entry at `j`, which may be too far back. */
  ghost predicate OrderedBut(r: seq<CacheEntry>, j: int) {
    forall a, b :: 0 <= a < b < |r| && b != j ==> !Less(r[b].key, r[a].key)
  }

  lemma SwapBack(r: seq<CacheEntry>, j: int)
    requires 0 < j < |r| && OrderedBut(r, j) && Less(r[j].key, r[j - 1].key)
    ensures OrderedBut(r[j := r[j - 1]][j - 1 := r[j]], j - 1)
    ensures multiset(r[j := r[j - 1]][j - 1 := r[j]]) == multiset(r)
  {
    LessIsAsymmetric(r[j].key, r[j - 1].key);
  }

  lemma InPlace(r: seq<CacheEntry>, j: int)
    requires 0 <= j < |r| && OrderedBut(r, j) && (j == 0 || !Less(r[j].key, r[j - 1].key))
    ensures Ordered(r)
  {
    forall a | 0 <= a < j
      ensures !Less(r[j].key, r[a].key)
    {
      if a < j - 1 {
        NotLessIsTransitive(r[a].key, r[j - 1].key, r[j].key);
      }
    }
  }

  /** Puts the last entry where it belongs, by swaps. */
  method InsertLast(es: seq<CacheEntry>) returns (r: seq<CacheEntry>)
    requires es != [] && Ordered(es[..|es| - 1])
    ensures Ordered(r) && multiset(r) == multiset(es)
  {
    r := es;
    var j := |es| - 1;
    while j > 0 && Less(r[j].key, r[j - 1].key)
      invariant 0 <= j < |r| && multiset(r) == multiset(es) && OrderedBut(r, j)
    {
      SwapBack(r, j);
      r := r[j := r[j - 1]][j - 1 := r[j]];
      j := j - 1;
    }
    InPlace(r, j);
  }

  method FilterAndSortEntries(entries: seq<CacheEntry>, filter: bytes) returns (r: seq<CacheEntry>)
    ensures IsListing(r, entries, filter)
  {
    var term := TrimSpace(filter);
    var filtered := [];
    for i := 0 to |entries|
      invariant filtered == Matching(entries[..i], term)
    {
      assert entries[..i + 1][..i] == entries[..i];
      if term == [] || Contains(entries[i].key, term) {
        filtered := filtered + [entries[i]];
      }
    }
    assert entries[..|entries|] == entries;
    r := [];
    for i := 0 to |filtered|
      invariant Ordered(r) && multiset(r) == multiset(filtered[..i])
    {
      assert filtered[..i + 1] == filtered[..i] + [filtered[i]];
      assert (r + [filtered[i]])[..|r|] == r;
      r := InsertLast(r + [filtered[i]]);
    }
    assert filtered[..|filtered|] == filtered;
  }

  /** Two entries with one key are one entry. */
  ghost predicate KeyedOnce(es: seq<CacheEntry>) {
    forall x, y :: x in es && y in es && x.key == y.key ==> x == y
  }

  lemma FirstIsLeast(a: seq<CacheEntry>, e: CacheEntry)
    requires Ordered(a) && e in a
    ensures e == a[0] || !Less(e.key, a[0].key)
  {
    var i :| 0 <= i < |a| && a[i] == e;
  }

  lemma FirstsAgree(a: seq<CacheEntry>, b: seq<CacheEntry>)
    requires Ordered(a) && Ordered(b) && multiset(a) == multiset(b) && KeyedOnce(a) && a != [] && b != []
    ensures a[0] == b[0]
  {
    assert a[0] in multiset(b) && b[0] in multiset(a);
    FirstIsLeast(a, b[0]);
    FirstIsLeast(b, a[0]);
    if a[0] != b[0] {
      LessIsTotal(a[0].key, b[0].key);
    }
  }

  lemma TailOf(a: seq<CacheEntry>)
    requires a != [] && Ordered(a)
    ensures Ordered(a[1..]) && multiset(a[1..]) == multiset(a) - multiset{a[0]}
    ensures KeyedOnce(a) ==> KeyedOnce(a[1..])
  {
    assert a == [a[0]] + a[1..];
    assert forall e :: e in a[1..] ==> e in a;
  }

  lemma TailsAgree(a: seq<CacheEntry>, b: seq<CacheEntry>)
    requires Ordered(a) && Ordered(b) && multiset(a) == multiset(b) && KeyedOnce(a) && a != [] && b != []
    ensures a[0] == b[0] && Ordered(a[1..]) && Ordered(b[1..])
    ensures multiset(a[1..]) == multiset(b[1..]) && KeyedOnce(a[1..])
  {
    FirstsAgree(a, b);
    TailOf(a);
    TailOf(b);
  }

  lemma {:induction false} OrderIsUnique(a: seq<CacheEntry>, b: seq<CacheEntry>)
    requires Ordered(a) && Ordered(b) && multiset(a) == multiset(b) && KeyedOnce(a)
    ensures a == b
  {
    assert |a| == |multiset(a)| == |b|;
    if a == [] {
    } else {
      TailsAgree(a, b);
      OrderIsUnique(a[1..], b[1..]);
      assert a == [a[0]] + a[1..] && b == [b[0]] + b[1..];
    }
  }

  /** An unchanged entry set has one listing, however its entries were enumerated. */
  lemma ListingIsUnique(r: seq<CacheEntry>, es: seq<CacheEntry>, q: seq<CacheEntry>, fs: seq<CacheEntry>, filter: bytes)
    requires IsListing(r, es, filter) && IsListing(q, fs, filter)
    requires multiset(es) == multiset(fs) && KeyedOnce(es)
    ensures r == q
  {
    var term := TrimSpace(filter);
    forall e
      ensures multiset(r)[e] == multiset(q)[e]
      ensures e in r ==> e in es
    {
      MatchingCounts(es, term, e);
      MatchingCounts(fs, term, e);
      assert e in r ==> e in multiset(r);
      assert e in multiset(es) ==> e in es;
    }
    assert multiset(r) == multiset(q);
    OrderIsUnique(r, q);
  }

  // --------------------------------------------------------------------- paging

  function SliceEntries(es: seq<CacheEntry>, offset: int, limit: int): Page {
    var first := if offset < 0 then 0 else if offset > |es| then |es| else offset;
    var stop := first + NormalizeListLimit(limit);
    var end := if stop > |es| then |es| else stop;
    Page(es[first..end], if end < |es| then EncodeOffsetCursor(end) else [], end < |es|)
  }

  function PageAt(listing: seq<CacheEntry>, cursor: bytes, limit: int): Option<Page> {
    var offset := DecodeOffsetCursor(cursor);
    if offset == None then None else Some(SliceEntries(listing, offset.value, limit))
  }

  /** What one request may be answered with; `None` is the malformed-cursor error. */
  ghost predicate Answers(r: Option<Page>, es: seq<CacheEntry>, filter: bytes, cursor: bytes, limit: int) {
    exists listing :: IsListing(listing, es, filter) && r == PageAt(listing, cursor, limit)
  }

  method ListPage(entries: seq<CacheEntry>, query: bytes, prefix: bytes, cursor: bytes, limit: int)
    returns (r: Option<Page>)
    ensures Answers(r, entries, if TrimSpace(query) != [] then TrimSpace(query) else TrimSpace(prefix), cursor, limit)
  {
    var filter := TrimSpace(query);
    if filter == [] {
      filter := TrimSpace(prefix);
    }
    var filtered := FilterAndSortEntries(entries, filter);
    var offset := DecodeOffsetCursor(cursor);
    if offset == None {
      r := None;
    } else {
      r := Some(SliceEntries(filtered, offset.value, limit));
    }
    assert r == PageAt(filtered, cursor, limit);
  }

  // ------------------------------------------------------------ following cursors

  /** One request and its answer: the entries as the backend enumerated them, the limit
      asked for, and the page that came back. */
  datatype Visit = Visit(es: seq<CacheEntry>, limit: int, page: Page)

  function CursorBefore(w: seq<Visit>, i: nat): bytes
    requires i <= |w|
  {
    if i == 0 then [] else w[i - 1].page.nextCursor
  }

  ghost predicate VisitOk(es: seq<CacheEntry>, filter: bytes, w: seq<Visit>, i: nat)
    requires i < |w|
  {
    && multiset(w[i].es) == multiset(es)
    && (i > 0 ==> w[i - 1].page.hasMore)
    && Answers(Some(w[i].page), w[i].es, filter, CursorBefore(w, i), w[i].limit)
  }

  /** A client that starts with the empty cursor and follows NextCursor while there is
      more, over the entry set `es`. */
  ghost predicate Walk(es: seq<CacheEntry>, filter: bytes, w: seq<Visit>) {
    forall i :: 0 <= i < |w| ==> VisitOk(es, filter, w, i)
  }

  lemma WalkPrefix(es: seq<CacheEntry>, filter: bytes, w: seq<Visit>)
    requires w != [] && Walk(es, filter, w)
    ensures var v := w[..|w| - 1];
            Walk(es, filter, v) && CursorBefore(v, |v|) == CursorBefore(w, |v|) && (v != [] ==> v[|v| - 1].page.hasMore)
  {
    var v := w[..|w| - 1];
    forall i: nat | i < |v|
      ensures VisitOk(es, filter, v, i)
    {
      assert VisitOk(es, filter, w, i);
      assert v[i] == w[i] && CursorBefore(v, i) == CursorBefore(w, i);
    }
    assert VisitOk(es, filter, w, |v|);
  }

  function Gathered(w: seq<Visit>): seq<CacheEntry> {
    if w == [] then [] else Gathered(w[..|w| - 1]) + w[|w| - 1].page.entries
  }

  /** Where a walk stands: the entries so far, and the cursor that leads on. */
  ghost predicate StandsAt(w: seq<Visit>, all: seq<CacheEntry>, k: nat) {
    && |w| <= k <= |all|
    && Gathered(w) == all[..k]
    && CursorBefore(w, |w|) == EncodeOffsetCursor(k)
  }

  /** A page is as long as asked for, or as what is left; an offset beyond the end gives an
      empty last page, a negative one the first. */
  lemma PageIsFull(all: seq<CacheEntry>, offset: int, limit: int)
    ensures var p, size := SliceEntries(all, offset, limit), NormalizeListLimit(limit);
            && (offset >= |all| ==> p == Page([], [], false))
            && (0 <= offset < |all| ==> |p.entries| == if |all| - offset < size then |all| - offset else size)
            && (offset < 0 ==> p == SliceEntries(all, 0, limit))
  {
  }

  lemma SliceSpans(all: seq<CacheEntry>, k: nat, limit: int)
    requires k <= |all|
    ensures var p := SliceEntries(all, k, limit);
            var end := k + |p.entries|;
            && end <= |all|
            && all[..k] + p.entries == all[..end]
            && (p.hasMore <==> end < |all|)
            && (p.hasMore ==> end > k && p.nextCursor == EncodeOffsetCursor(end))
  {
  }

  /** The cursor of an offset asks for the slice that starts there. */
  lemma PageAtOffset(listing: seq<CacheEntry>, k: nat, limit: int)
    requires IsInt64(k)
    ensures PageAt(listing, EncodeOffsetCursor(k), limit) == Some(SliceEntries(listing, k, limit))
  {
    CursorRoundTrip(k);
  }

  /** Every visit of a walk sees the one listing. */
  lemma VisitShows(es: seq<CacheEntry>, filter: bytes, all: seq<CacheEntry>, v: Visit, k: nat)
    requires KeyedOnce(es) && IsListing(all, es, filter) && multiset(v.es) == multiset(es) && IsInt64(k)
    requires Answers(Some(v.page), v.es, filter, EncodeOffsetCursor(k), v.limit)
    ensures v.page == SliceEntries(all, k, v.limit)
  {
    var listing :| IsListing(listing, v.es, filter) && Some(v.page) == PageAt(listing, EncodeOffsetCursor(k), v.limit);
    ListingIsUnique(all, es, listing, v.es, filter);
    PageAtOffset(all, k, v.limit);
  }

  lemma LastVisitShows(es: seq<CacheEntry>, filter: bytes, all: seq<CacheEntry>, w: seq<Visit>, k: nat)
    requires KeyedOnce(es) && IsListing(all, es, filter) && IsInt64(k) && w != [] && Walk(es, filter, w)
    requires CursorBefore(w, |w| - 1) == EncodeOffsetCursor(k)
    ensures w[|w| - 1].page == SliceEntries(all, k, w[|w| - 1].limit)
  {
    assert VisitOk(es, filter, w, |w| - 1);
    VisitShows(es, filter, all, w[|w| - 1], k);
  }

  /** One more page adds its entries. */
  lemma {:induction false} PageAdds(all: seq<CacheEntry>, w: seq<Visit>, k: nat)
    requires w != [] && k <= |all| && Gathered(w[..|w| - 1]) == all[..k]
    requires var p := w[|w| - 1].page; k + |p.entries| <= |all| && all[..k] + p.entries == all[..k + |p.entries|]
    ensures Gathered(w) == all[..k + |w[|w| - 1].page.entries|]
  {
  }

  /** One more page of the listing moves a walk on. */
  lemma {:induction false} PageMoves(all: seq<CacheEntry>, w: seq<Visit>, k: nat)
    requires w != [] && StandsAt(w[..|w| - 1], all, k)
    requires w[|w| - 1].page == SliceEntries(all, k, w[|w| - 1].limit)
    ensures var p := w[|w| - 1].page;
            && (p.hasMore ==> StandsAt(w, all, k + |p.entries|))
            && (!p.hasMore ==> Gathered(w) == all)
  {
    SliceSpans(all, k, w[|w| - 1].limit);
    PageAdds(all, w, k);
    assert all[..|all|] == all;
  }

  lemma {:induction false} VisitMoves(es: seq<CacheEntry>, filter: bytes, all: seq<CacheEntry>, w: seq<Visit>, k: nat)
    requires KeyedOnce(es) && IsListing(all, es, filter) && IsInt64(|all|) && w != [] && Walk(es, filter, w)
    requires StandsAt(w[..|w| - 1], all, k)
    ensures var p := w[|w| - 1].page;
            && (p.hasMore ==> StandsAt(w, all, k + |p.entries|))
            && (!p.hasMore ==> Gathered(w) == all)
  {
    WalkPrefix(es, filter, w);
    LastVisitShows(es, filter, all, w, k);
    PageMoves(all, w, k);
  }

  lemma {:induction false} WalkStands(es: seq<CacheEntry>, filter: bytes, all: seq<CacheEntry>, w: seq<Visit>)
    returns (k: nat)
    requires KeyedOnce(es) && IsListing(all, es, filter) && IsInt64(|all|) && Walk(es, filter, w)
    requires w != [] ==> w[|w| - 1].page.hasMore
    ensures StandsAt(w, all, k)
  {
    if w == [] {
      k := 0;
    } else {
      WalkPrefix(es, filter, w);
      k := WalkStands(es, filter, all, w[..|w| - 1]);
      VisitMoves(es, filter, all, w, k);
      k := k + |w[|w| - 1].page.entries|;
    }
  }

  /** Following the cursors ends, whatever limits are asked for: a walk has at most one page
      per entry and one more, and when the last page promises no more, the pages together are
      the matching entries in key order, each once. */
  lemma {:induction false} PaginationComplete(es: seq<CacheEntry>, filter: bytes, all: seq<CacheEntry>, w: seq<Visit>)
    requires KeyedOnce(es) && IsListing(all, es, filter) && IsInt64(|all|)
    requires w != [] && Walk(es, filter, w)
    ensures |w| <= |all| + 1
    ensures !w[|w| - 1].page.hasMore ==> Gathered(w) == all
  {
    WalkPrefix(es, filter, w);
    var k := WalkStands(es, filter, all, w[..|w| - 1]);
    VisitMoves(es, filter, all, w, k);
  }

  /** A walk never gets stuck: while the last page promises more, the cursor it gives is
      accepted, with any limit, and leads to the entry after those gathered. */
  lemma {:induction false} CursorsLeadOn(es: seq<CacheEntry>, filter: bytes, all: seq<CacheEntry>, w: seq<Visit>,
                                         limit: int)
    requires KeyedOnce(es) && IsListing(all, es, filter) && IsInt64(|all|)
    requires w != [] && Walk(es, filter, w) && w[|w| - 1].page.hasMore
    ensures PageAt(all, w[|w| - 1].page.nextCursor, limit) == Some(SliceEntries(all, |Gathered(w)|, limit))
  {
    var k := WalkStands(es, filter, all, w);
    PageAtOffset(all, k, limit);
  }
}
