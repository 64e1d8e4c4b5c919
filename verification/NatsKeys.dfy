/** How the NATS store scopes its keys: unpadded base64url parts (sections 3.2 and 5
    of RFC 4648) joined with dots, and a Flush that goes by the scope prefix. */
module NatsKeys {
  import opened Bytes

  const DOT: byte := 46
  const UNDERSCORE: byte := 95
  const NEWLINE: byte := 10
  const RETURN: byte := 13
  const HEAD: bytes := [112, 46]      // "p."
  const MIDDLE: bytes := [46, 107, 46]  // ".k."

  // ------------------------------------------------------------------- base64url

  type sextet = x: int | 0 <= x < 64

  function Letter(n: sextet): (c: byte)
    ensures c != DOT && c != NEWLINE && c != RETURN
    ensures Sextet(c) == Some(n)
  {
    if n < 26 then 65 + n
    else if n < 52 then 71 + n
    else if n < 62 then n - 4
    else if n == 62 then 45
    else UNDERSCORE
  }

  function Sextet(c: byte): Option<sextet> {
    if 65 <= c <= 90 then Some(c - 65)
    else if 97 <= c <= 122 then Some(c - 71)
    else if 48 <= c <= 57 then Some(c + 4)
    else if c == 45 then Some(62)
    else if c == UNDERSCORE then Some(63)
    else None
  }

  // the four groups of three bytes

  function Group1(x: int): sextet
    requires 0 <= x < 256
  {
    x / 4
  }

  function Group2(x: int, y: int): sextet
    requires 0 <= x < 256 && 0 <= y < 256
  {
    x % 4 * 16 + y / 16
  }

  function Group3(y: int, z: int): sextet
    requires 0 <= y < 256 && 0 <= z < 256
  {
    y % 16 * 4 + z / 64
  }

  function Group4(z: int): sextet {
    z % 64
  }

  // the three bytes of four groups

  function Byte1(w: int, x: int): byte
    requires 0 <= w < 64 && 0 <= x < 64
  {
    w * 4 + x / 16
  }

  function Byte2(x: int, y: int): byte
    requires 0 <= x < 64 && 0 <= y < 64
  {
    x % 16 * 16 + y / 4
  }

  function Byte3(y: int, z: int): byte
    requires 0 <= y < 64 && 0 <= z < 64
  {
    y % 4 * 64 + z
  }

  lemma BytesRoundTrip(x: byte, y: byte, z: byte)
    ensures Byte1(Group1(x), Group2(x, y)) == x
    ensures Byte2(Group2(x, y), Group3(y, z)) == y
    ensures Byte3(Group3(y, z), Group4(z)) == z
  {
    assert Group2(x, y) / 16 == x % 4 && Group2(x, y) % 16 == y / 16;
    assert Group3(y, z) / 4 == y % 16 && Group3(y, z) % 4 == z / 64;
  }

  /** Bytes cut into groups of six bits, zeros filling up the last one. */
  function Split(b: bytes): seq<sextet> {
    if b == [] then []
    else if |b| == 1 then [Group1(b[0]), Group2(b[0], 0)]
    else if |b| == 2 then [Group1(b[0]), Group2(b[0], b[1]), Group3(b[1], 0)]
    else [Group1(b[0]), Group2(b[0], b[1]), Group3(b[1], b[2]), Group4(b[2])] + Split(b[3..])
  }

  /** The bytes of such groups; a lone group at the end is an error. */
  function Join(x: seq<sextet>): Option<bytes> {
    if x == [] then Some([])
    else if |x| == 1 then None
    else if |x| == 2 then Some([Byte1(x[0], x[1])])
    else if |x| == 3 then Some([Byte1(x[0], x[1]), Byte2(x[1], x[2])])
    else
      var rest := Join(x[4..]);
      if rest == None then None
      else Some([Byte1(x[0], x[1]), Byte2(x[1], x[2]), Byte3(x[2], x[3])] + rest.value)
  }

  function Letters(x: seq<sextet>): bytes {
    if x == [] then [] else [Letter(x[0])] + Letters(x[1..])
  }

  function Sextets(s: bytes): Option<seq<sextet>> {
    if s == [] then Some([])
    else
      var first, rest := Sextet(s[0]), Sextets(s[1..]);
      if first == None || rest == None then None else Some([first.value] + rest.value)
  }

  function Encode(b: bytes): bytes {
    Letters(Split(b))
  }

  /** The decoder skips line breaks wherever they are. */
  function Unbroken(s: bytes): bytes {
    if s == [] then [] else Kept(s[0]) + Unbroken(s[1..])
  }

  function Kept(c: byte): bytes {
    if c == NEWLINE || c == RETURN then [] else [c]
  }

  function Decode(s: bytes): Option<bytes> {
    var x := Sextets(Unbroken(s));
    if x == None then None else Join(x.value)
  }

  predicate Plain(s: bytes) {
    forall i :: 0 <= i < |s| ==> s[i] != DOT && s[i] != NEWLINE && s[i] != RETURN
  }

  lemma {:induction false} LettersRoundTrip(x: seq<sextet>)
    ensures Plain(Letters(x)) && |Letters(x)| == |x| && Sextets(Letters(x)) == Some(x)
  {
    if x == [] {
    } else {
      LettersRoundTrip(x[1..]);
      var s := Letters(x);
      assert s[0] == Letter(x[0]) && s[1..] == Letters(x[1..]);
      assert x == [x[0]] + x[1..];
    }
  }

  lemma {:induction false} PlainIsUnbroken(s: bytes)
    requires Plain(s)
    ensures Unbroken(s) == s
  {
    if s == [] {
    } else {
      PlainIsUnbroken(s[1..]);
    }
  }

  lemma JoinTwo(w: sextet, x: sextet)
    ensures Join([w, x]) == Some([Byte1(w, x)])
  {
  }

  lemma JoinThree(w: sextet, x: sextet, y: sextet)
    ensures Join([w, x, y]) == Some([Byte1(w, x), Byte2(x, y)])
  {
  }

  lemma JoinFour(w: sextet, x: sextet, y: sextet, z: sextet, rest: seq<sextet>)
    requires Join(rest).Some?
    ensures Join([w, x, y, z] + rest) == Some([Byte1(w, x), Byte2(x, y), Byte3(y, z)] + Join(rest).value)
  {
    assert ([w, x, y, z] + rest)[4..] == rest;
  }

  lemma JoinSplitOne(x: byte)
    ensures Join(Split([x])) == Some([x])
  {
    JoinTwo(Group1(x), Group2(x, 0));
    BytesRoundTrip(x, 0, 0);
  }

  lemma JoinSplitTwo(x: byte, y: byte)
    ensures Join(Split([x, y])) == Some([x, y])
  {
    JoinThree(Group1(x), Group2(x, y), Group3(y, 0));
    BytesRoundTrip(x, y, 0);
  }

  lemma {:induction false} JoinSplit(b: bytes)
    ensures Join(Split(b)) == Some(b)
  {
    if b == [] {
    } else if |b| == 1 {
      JoinSplitOne(b[0]);
      assert b == [b[0]];
    } else if |b| == 2 {
      JoinSplitTwo(b[0], b[1]);
      assert b == [b[0], b[1]];
    } else {
      JoinSplit(b[3..]);
      JoinFour(Group1(b[0]), Group2(b[0], b[1]), Group3(b[1], b[2]), Group4(b[2]), Split(b[3..]));
      BytesRoundTrip(b[0], b[1], b[2]);
      assert b == [b[0], b[1], b[2]] + b[3..];
    }
  }

  /** Decoding undoes encoding, and encodings hold no dot and no line break. */
  lemma DecodeEncode(b: bytes)
    ensures Decode(Encode(b)) == Some(b) && Plain(Encode(b)) && (b != [] ==> |Encode(b)| >= 2)
  {
    LettersRoundTrip(Split(b));
    PlainIsUnbroken(Encode(b));
    JoinSplit(b);
  }

  // ------------------------------------------------------------------------- keys

  /** `encodeKeyPart`: the empty part is a lone underscore. */
  function KeyPart(part: bytes): bytes {
    if part == [] then [UNDERSCORE] else Encode(part)
  }

  function DecodePart(s: bytes): Option<bytes> {
    if s == [UNDERSCORE] then Some([]) else Decode(s)
  }

  /** `decodeCacheKey` undoes `encodeKeyPart` for every string. */
  lemma PartRoundTrip(part: bytes)
    ensures DecodePart(KeyPart(part)) == Some(part) && Plain(KeyPart(part))
  {
    DecodeEncode(part);
  }

  function ScopePrefix(prefix: bytes): bytes {
    HEAD + KeyPart(prefix) + MIDDLE
  }

  function CacheKey(prefix: bytes, key: bytes): bytes {
    ScopePrefix(prefix) + KeyPart(key)
  }

  /** Two texts split at their first dot. */
  lemma FirstDot(a: bytes, x: bytes, b: bytes, y: bytes)
    requires Plain(a) && Plain(b) && a + [DOT] + x == b + [DOT] + y
    ensures a == b && x == y
  {
    var s, t := a + [DOT] + x, b + [DOT] + y;
    assert s[|a|] == DOT && forall i :: 0 <= i < |a| ==> s[i] == a[i];
    assert t[|b|] == DOT && forall i :: 0 <= i < |b| ==> t[i] == b[i];
    assert a == s[..|a|] && b == t[..|b|];
    assert x == s[|a| + 1..] && y == t[|b| + 1..];
  }

  /** A dotted text starts with another's scope exactly when their parts are the same. */
  lemma DottedPrefix(a: bytes, x: bytes, b: bytes)
    requires Plain(a) && Plain(b)
    ensures HasPrefix(HEAD + a + MIDDLE + x, HEAD + b + MIDDLE) <==> a == b
  {
    var s, p, k := HEAD + a + MIDDLE + x, HEAD + b + MIDDLE, [107, DOT];
    if a == b {
      assert s[..|p|] == p;
    }
    if HasPrefix(s, p) {
      var y := s[|p|..];
      assert s == p + y;
      assert s[2..] == a + [DOT] + (k + x) && s[2..] == b + [DOT] + (k + y);
      FirstDot(a, k + x, b, k + y);
    }
  }

  /** A full key starts with a store's scope prefix if and only if it was built with
      that same prefix. */
  lemma ScopeIsExact(prefix: bytes, other: bytes, key: bytes)
    ensures HasPrefix(CacheKey(other, key), ScopePrefix(prefix)) <==> other == prefix
  {
    PartRoundTrip(prefix);
    PartRoundTrip(other);
    DottedPrefix(KeyPart(other), KeyPart(key), KeyPart(prefix));
  }

  lemma CacheKeyInjective(p: bytes, k: bytes, q: bytes, j: bytes)
    requires CacheKey(p, k) == CacheKey(q, j)
    ensures p == q && k == j
  {
    assert CacheKey(q, j)[..|ScopePrefix(q)|] == ScopePrefix(q);
    ScopeIsExact(q, p, k);
    assert CacheKey(p, k)[|ScopePrefix(p)|..] == KeyPart(k) && CacheKey(q, j)[|ScopePrefix(q)|..] == KeyPart(j);
    PartRoundTrip(k);
    PartRoundTrip(j);
  }

  // ------------------------------------------------------------------------ flush

  function Flushed(kv: map<bytes, bytes>, scope: bytes): map<bytes, bytes> {
    map k | k in kv && !HasPrefix(k, scope) :: kv[k]
  }

  /** A listed key of the scope that is still there and whose purge errs. */
  predicate Stuck(kv: map<bytes, bytes>, scope: bytes, bad: set<bytes>, k: bytes) {
    k in kv && k in bad && HasPrefix(k, scope)
  }

  class Bucket {
    var kv: map<bytes, bytes>

    /** Purges what the lister names and the scope owns. The lister names every key, in
        some order, unless it ends with an error; `bad` are the keys whose purge errs, which
        ends the loop. */
    method Flush(listing: seq<bytes>, listErr: bool, bad: set<bytes>, scope: bytes) returns (ok: bool)
      requires !listErr ==> forall k :: k in kv ==> k in listing
      modifies this
      ensures ok <==> !listErr && forall i :: 0 <= i < |listing| ==> !Stuck(old(kv), scope, bad, listing[i])
      ensures ok ==> kv == Flushed(old(kv), scope)
      ensures kv.Keys <= old(kv).Keys
      ensures forall k :: k in old(kv) && !HasPrefix(k, scope) ==> k in kv
      ensures forall k :: k in kv ==> kv[k] == old(kv)[k]
    {
      for i := 0 to |listing|
        invariant kv.Keys <= old(kv).Keys
        invariant forall k :: k in old(kv) ==> (k in kv <==> !HasPrefix(k, scope) || k !in listing[..i])
        invariant forall k :: k in kv ==> kv[k] == old(kv)[k]
        invariant forall j :: 0 <= j < i ==> !Stuck(old(kv), scope, bad, listing[j])
      {
        assert forall k :: k in listing[..i + 1] <==> k in listing[..i] || k == listing[i];
        if HasPrefix(listing[i], scope) {
          if listing[i] in kv && listing[i] in bad {
            assert Stuck(old(kv), scope, bad, listing[i]);
            return false;
          }
          kv := kv - {listing[i]};
        }
        assert listing[i] in listing[..i] ==> !Stuck(old(kv), scope, bad, listing[i]);
      }
      assert listing[..|listing|] == listing;
      return !listErr;
    }
  }

  /** A Flush leaves every other namespace as it was and nothing of its own. */
  lemma FlushStaysInScope(kv: map<bytes, bytes>, prefix: bytes, other: bytes, key: bytes)
    ensures var full, after := CacheKey(other, key), Flushed(kv, ScopePrefix(prefix));
            && (full in after <==> full in kv && other != prefix)
            && (full in after ==> after[full] == kv[full])
  {
    ScopeIsExact(prefix, other, key);
  }

  // -------------------------------------------------------------- the bytes written out

  /** The base64url alphabet: A to Z, a to z, 0 to 9, '-' and '_'. */
  lemma Alphabet(n: sextet)
    ensures var c := Letter(n);
            && (n < 26 ==> c == 65 + n) && (26 <= n < 52 ==> c == 97 + (n - 26))
               && (52 <= n < 62 ==> c == 48 + (n - 52))
            && (n == 62 ==> c == 45) && (n == 63 ==> c == 95)
  {
  }

  /** A full key is "p.", the encoded prefix, ".k." and the encoded key; an empty part is "_". */
  lemma KeyLayout(prefix: bytes, key: bytes)
    ensures var p, k := if prefix == [] then [95] else Encode(prefix), if key == [] then [95] else Encode(key);
            CacheKey(prefix, key) == [112, 46] + p + [46, 107, 46] + k
  {
  }

  predicate InAlphabet(c: byte) {
    65 <= c <= 90 || 97 <= c <= 122 || 48 <= c <= 57 || c == 45 || c == 95
  }

  lemma {:induction false} SextetsExactly(s: bytes)
    ensures Sextets(s).Some? <==> forall i :: 0 <= i < |s| ==> InAlphabet(s[i])
    ensures Sextets(s).Some? ==> |Sextets(s).value| == |s|
  {
    if s == [] {
    } else {
      SextetsExactly(s[1..]);
      assert forall i :: 0 < i < |s| ==> s[i] == s[1..][i - 1];
    }
  }

  lemma {:induction false} JoinsExactly(x: seq<sextet>, fours: nat, left: nat)
    requires |x| == 4 * fours + left && left < 4
    ensures Join(x).Some? <==> left != 1
    decreases fours
  {
    if fours == 0 {
    } else {
      JoinsExactly(x[4..], fours - 1, left);
    }
  }

  /** Exactly what decodes: line breaks aside, bytes of the alphabet, and not one more than a
      multiple of four. */
  lemma DecodesExactly(s: bytes)
    ensures Decode(s).Some? <==>
              (forall i :: 0 <= i < |Unbroken(s)| ==> InAlphabet(Unbroken(s)[i])) && |Unbroken(s)| % 4 != 1
  {
    SextetsExactly(Unbroken(s));
    if Sextets(Unbroken(s)).Some? {
      JoinsExactly(Sextets(Unbroken(s)).value, |Unbroken(s)| / 4, |Unbroken(s)| % 4);
    }
  }

  lemma Associates(a: bytes, b: bytes, c: bytes)
    ensures (a + b) + c == a + (b + c)
  {
  }

  /** Each byte is kept or skipped by itself... */
  lemma {:induction false} UnbrokenAppends(a: bytes, b: bytes)
    ensures Unbroken(a + b) == Unbroken(a) + Unbroken(b)
  {
    if a == [] {
      assert a + b == b;
    } else {
      UnbrokenAppends(a[1..], b);
      assert (a + b)[0] == a[0] && (a + b)[1..] == a[1..] + b;
      Associates(Kept(a[0]), Unbroken(a[1..]), Unbroken(b));
    }
  }

  /** ...and only line breaks are skipped. */
  lemma SkipsLineBreaks(c: byte)
    ensures Unbroken([c]) == if c == 10 || c == 13 then [] else [c]
  {
    assert [c][1..] == [] && Unbroken([]) == [];
  }
}
