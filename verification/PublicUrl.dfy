/** Percent-encoded public URLs of object keys (scripts/mirror_to_r2.py), with the encoding of sections 2.1 and 2.3 of
    RFC 3986.  Keys and URLs are sequences of bytes: keys in UTF-8, URLs in ASCII. */
module PublicUrl {
  type Byte = b: nat | b < 256
  type Bytes = seq<Byte>

  const SLASH: Byte := 47
  const PERCENT: Byte := 37

  /** Letters, digits, `-`, `.`, `_` and `~`. */
  predicate Unreserved(b: Byte) {
    || 48 <= b <= 57 || 65 <= b <= 90 || 97 <= b <= 122
    || b == 45 || b == 46 || b == 95 || b == 126
  }

  /** An upper-case hexadecimal digit. */
  function HexDigit(n: nat): (d: Byte)
    requires n < 16
    ensures Unreserved(d)
  {
    if n < 10 then 48 + n else 55 + n
  }

  /** The characters behind the byte values: the unreserved set of section 2.3, and upper-case hexadecimal digits. */
  lemma Characters(b: Byte, n: nat)
    requires n < 16
    ensures var c := b as char;
      Unreserved(b) <==> 'A' <= c <= 'Z' || 'a' <= c <= 'z' || '0' <= c <= '9' || c in {'-', '.', '_', '~'}
    ensures HexDigit(n) == if n < 10 then '0' as int + n else 'A' as int + n - 10
    ensures SLASH as char == '/' && PERCENT as char == '%'
  {
  }

  /** Python's `quote` with no character declared safe. */
  function Quote(s: Bytes): Bytes {
    if s == [] then []
    else if Unreserved(s[0]) then [s[0]] + Quote(s[1..])
    else [PERCENT, HexDigit(s[0] / 16), HexDigit(s[0] % 16)] + Quote(s[1..])
  }

  function HexValue(d: Byte): (n: nat)
    ensures n < 16
  {
    if 48 <= d <= 57 then d - 48 else if 65 <= d <= 70 then d - 55 else if 97 <= d <= 102 then d - 87 else 0
  }

  /** The decoding of section 2.1: `%` and two hexadecimal digits stand for one byte. */
  function Unquote(s: Bytes): Bytes
    decreases |s|
  {
    if s == [] then []
    else if s[0] == PERCENT && |s| >= 3 then [16 * HexValue(s[1]) + HexValue(s[2])] + Unquote(s[3..])
    else [s[0]] + Unquote(s[1..])
  }

  lemma {:induction false} UnquoteQuote(s: Bytes)
    ensures Unquote(Quote(s)) == s
  {
    if s == [] {
    } else {
      UnquoteQuote(s[1..]);
      var q, rest := Quote(s), Quote(s[1..]);
      if Unreserved(s[0]) {
        assert q[1..] == rest;
      } else {
        assert q[3..] == rest;
      }
    }
  }

  /** Bytes are quoted one by one: unreserved ones stay, others become a percent sign and two hexadecimal digits. */
  lemma {:induction false} QuoteBytes(a: Bytes, b: Byte)
    ensures Quote(a + [b])
         == Quote(a) + if Unreserved(b) then [b] else [PERCENT, HexDigit(b / 16), HexDigit(b % 16)]
    ensures Quote([]) == []
  {
    if a == [] {
      assert [] + [b] == [b] && [b][1..] == [];
    } else {
      QuoteBytes(a[1..], b);
      assert (a + [b])[1..] == a[1..] + [b];
    }
  }

  /** Only unreserved characters and percent signs: in particular no slash. */
  lemma {:induction false} QuoteIsPlain(s: Bytes)
    ensures forall i :: 0 <= i < |Quote(s)| ==> Unreserved(Quote(s)[i]) || Quote(s)[i] == PERCENT
    ensures Quote(s) == [] <==> s == []
  {
    if s == [] {
    } else {
      QuoteIsPlain(s[1..]);
    }
  }

  /** Python's `split("/")`: the pieces between slashes, always at least one. */
  function Split(s: Bytes): (pieces: seq<Bytes>)
    ensures pieces != []
  {
    if s == [] then [[]]
    else
      var rest := Split(s[1..]);
      if s[0] == SLASH then [[]] + rest else [[s[0]] + rest[0]] + rest[1..]
  }

  function Join(pieces: seq<Bytes>): Bytes {
    if pieces == [] then []
    else if |pieces| == 1 then pieces[0]
    else pieces[0] + [SLASH] + Join(pieces[1..])
  }

  /** The pieces that are not empty. */
  function NonEmpty(pieces: seq<Bytes>): seq<Bytes> {
    if pieces == [] then []
    else (if pieces[0] != [] then [pieces[0]] else []) + NonEmpty(pieces[1..])
  }

  function Segments(key: Bytes): seq<Bytes> {
    NonEmpty(Split(key))
  }

  function QuoteAll(pieces: seq<Bytes>): (r: seq<Bytes>)
    ensures |r| == |pieces| && forall i :: 0 <= i < |r| ==> r[i] == Quote(pieces[i])
  {
    seq(|pieces|, i requires 0 <= i < |pieces| => Quote(pieces[i]))
  }

  function UnquoteAll(pieces: seq<Bytes>): (r: seq<Bytes>)
    ensures |r| == |pieces| && forall i :: 0 <= i < |r| ==> r[i] == Unquote(pieces[i])
  {
    seq(|pieces|, i requires 0 <= i < |pieces| => Unquote(pieces[i]))
  }

  function LStrip(s: Bytes): Bytes {
    if s != [] && s[0] == SLASH then LStrip(s[1..]) else s
  }

  function RStrip(s: Bytes): Bytes {
    if s != [] && s[|s| - 1] == SLASH then RStrip(s[..|s| - 1]) else s
  }

  /** The path that the tool writes after the base. */
  function Path(key: Bytes): Bytes {
    Join(QuoteAll(NonEmpty(Split(LStrip(key)))))
  }

  function Url(base: Bytes, key: Bytes): Bytes {
    RStrip(base) + [SLASH] + Path(key)
  }

  function Slashes(n: nat): (s: Bytes)
    ensures |s| == n && forall i :: 0 <= i < n ==> s[i] == SLASH
  {
    seq(n, i => SLASH)
  }

  /** What a reader of the URL makes of it, who knows the base without its trailing slashes. */
  function ReadBack(stem: Bytes, url: Bytes): seq<Bytes>
    requires |url| > |stem|
  {
    NonEmpty(UnquoteAll(Split(url[|stem| + 1..])))
  }

  predicate NoTrailingSlash(s: Bytes) {
    s != [] ==> s[|s| - 1] != SLASH
  }

  /** Exactly the trailing slashes of the base go. */
  lemma {:induction false} BaseStem(stem: Bytes, n: nat)
    requires NoTrailingSlash(stem)
    ensures RStrip(stem + Slashes(n)) == stem
    decreases n
  {
    if n == 0 {
      assert stem + Slashes(0) == stem;
    } else {
      BaseStem(stem, n - 1);
      assert (stem + Slashes(n))[..|stem| + n - 1] == stem + Slashes(n - 1);
    }
  }

  /** Every base is a stem with trailing slashes. */
  lemma {:induction false} EveryBase(base: Bytes) returns (stem: Bytes, n: nat)
    ensures base == stem + Slashes(n) && NoTrailingSlash(stem)
  {
    if base == [] || base[|base| - 1] != SLASH {
      stem, n := base, 0;
      assert base == base + Slashes(0);
    } else {
      var n';
      stem, n' := EveryBase(base[..|base| - 1]);
      n := n' + 1;
      assert base == base[..|base| - 1] + [SLASH];
      assert stem + Slashes(n) == stem + Slashes(n') + [SLASH];
    }
  }

  ghost predicate NoSlash(s: Bytes) {
    forall i :: 0 <= i < |s| ==> s[i] != SLASH
  }

  ghost predicate Clean(pieces: seq<Bytes>) {
    forall i :: 0 <= i < |pieces| ==> NoSlash(pieces[i])
  }

  /** Extending the first piece extends the joined text. */
  lemma JoinPrepend(c: Byte, pieces: seq<Bytes>)
    requires pieces != []
    ensures Join([[c] + pieces[0]] + pieces[1..]) == [c] + Join(pieces)
  {
    var longer := [[c] + pieces[0]] + pieces[1..];
    assert longer[1..] == pieces[1..];
    if |pieces| > 1 {
      assert [c] + pieces[0] + [SLASH] + Join(pieces[1..]) == [c] + (pieces[0] + [SLASH] + Join(pieces[1..]));
    }
  }

  /** A new empty first piece puts a slash in front. */
  lemma JoinEmptyFirst(pieces: seq<Bytes>)
    requires pieces != []
    ensures Join([[]] + pieces) == [SLASH] + Join(pieces)
  {
    assert ([[]] + pieces)[1..] == pieces;
    assert [] + [SLASH] + Join(pieces) == [SLASH] + Join(pieces);
  }

  lemma {:induction false} JoinSplit(s: Bytes)
    ensures Join(Split(s)) == s
    ensures Clean(Split(s))
  {
    if s == [] {
    } else {
      hide Join;
      JoinSplit(s[1..]);
      JoinEmptyFirst(Split(s[1..]));
      JoinPrepend(s[0], Split(s[1..]));
      assert [s[0]] + s[1..] == s;
    }
  }

  /** Splitting after a slash-free piece. */
  lemma {:induction false} SplitPiece(piece: Bytes, rest: Bytes)
    requires NoSlash(piece)
    ensures Split(piece) == [piece]
    ensures Split(piece + [SLASH] + rest) == [piece] + Split(rest)
  {
    if piece == [] {
      assert [] + [SLASH] + rest == [SLASH] + rest;
      assert ([SLASH] + rest)[1..] == rest;
    } else {
      SplitPiece(piece[1..], rest);
      var s := piece + [SLASH] + rest;
      assert s[1..] == piece[1..] + [SLASH] + rest;
      assert [piece[0]] + piece[1..] == piece;
      assert ([piece[1..]] + Split(rest))[1..] == Split(rest);
    }
  }

  lemma {:induction false} SplitJoin(pieces: seq<Bytes>)
    requires pieces != [] && Clean(pieces)
    ensures Split(Join(pieces)) == pieces
  {
    assert NoSlash(pieces[0]);
    if |pieces| == 1 {
      SplitPiece(pieces[0], []);
    } else {
      SplitPiece(pieces[0], Join(pieces[1..]));
      SplitJoin(pieces[1..]);
      assert [pieces[0]] + pieces[1..] == pieces;
    }
  }

  /** Leading slashes only add empty pieces. */
  lemma {:induction false} LStripSegments(key: Bytes)
    ensures Segments(LStrip(key)) == Segments(key)
  {
    if key != [] && key[0] == SLASH {
      LStripSegments(key[1..]);
      assert Split(key) == [[]] + Split(key[1..]);
      assert ([[]] + Split(key[1..]))[1..] == Split(key[1..]);
    }
  }

  /** The non-empty pieces are kept one by one. */
  lemma {:induction false} NonEmptySnoc(pieces: seq<Bytes>, piece: Bytes)
    ensures NonEmpty(pieces + [piece]) == NonEmpty(pieces) + if piece == [] then [] else [piece]
    ensures NonEmpty([]) == []
  {
    if pieces == [] {
      assert pieces + [piece] == [piece] && [piece][1..] == [];
    } else {
      NonEmptySnoc(pieces[1..], piece);
      assert (pieces + [piece])[1..] == pieces[1..] + [piece];
    }
  }

  lemma {:induction false} NonEmptyPieces(pieces: seq<Bytes>)
    ensures forall i :: 0 <= i < |NonEmpty(pieces)| ==> NonEmpty(pieces)[i] != []
    ensures (forall i :: 0 <= i < |pieces| ==> pieces[i] != []) ==> NonEmpty(pieces) == pieces
  {
    if pieces == [] {
    } else {
      NonEmptyPieces(pieces[1..]);
      assert [pieces[0]] + pieces[1..] == pieces;
    }
  }

  /** A URL is the base without its trailing slashes, one slash, and a path; splitting that path and decoding each
      piece gives back exactly the key's non-empty segments. */
  lemma UrlRoundTrip(stem: Bytes, n: nat, key: Bytes)
    requires NoTrailingSlash(stem)
    ensures var url := Url(stem + Slashes(n), key);
      && stem + [SLASH] <= url && url == stem + [SLASH] + Path(key)
      && ReadBack(stem, url) == Segments(key)
  {
    BaseStem(stem, n);
    var url := Url(stem + Slashes(n), key);
    assert url[|stem| + 1..] == Path(key);
    PathReadsBack(key);
  }

  lemma PathReadsBack(key: Bytes)
    ensures NonEmpty(UnquoteAll(Split(Path(key)))) == Segments(key)
  {
    var segments := Segments(LStrip(key));
    LStripSegments(key);
    var quoted := QuoteAll(segments);
    if segments == [] {
      assert Path(key) == [];
      var one: seq<Bytes> := [[]];
      assert UnquoteAll(one) == one && one[1..] == [];
    } else {
      QuotedAreClean(segments);
      SplitJoin(quoted);
      UnquoteQuoteAll(segments);
      NonEmptyPieces(Split(LStrip(key)));
      NonEmptyPieces(segments);
    }
  }

  /** The path is the quoted non-empty segments, joined by slashes. */
  lemma PathIs(key: Bytes)
    ensures Path(key) == Join(QuoteAll(Segments(key)))
  {
    LStripSegments(key);
  }

  lemma QuotedAreClean(pieces: seq<Bytes>)
    ensures Clean(QuoteAll(pieces))
  {
    forall i | 0 <= i < |pieces| ensures NoSlash(QuoteAll(pieces)[i]) {
      QuoteIsPlain(pieces[i]);
    }
  }

  lemma UnquoteQuoteAll(pieces: seq<Bytes>)
    ensures UnquoteAll(QuoteAll(pieces)) == pieces
  {
    forall i | 0 <= i < |pieces| ensures UnquoteAll(QuoteAll(pieces))[i] == pieces[i] {
      UnquoteQuote(pieces[i]);
    }
  }

  ghost predicate NoEmptySegment(key: Bytes) {
    Split(key) == Segments(key)
  }

  /** Two keys share a URL exactly when they have the same non-empty segments. */
  lemma SameUrl(base: Bytes, a: Bytes, b: Bytes)
    ensures Url(base, a) == Url(base, b) <==> Segments(a) == Segments(b)
  {
    var stem, n := EveryBase(base);
    UrlRoundTrip(stem, n, a);
    UrlRoundTrip(stem, n, b);
    LStripSegments(a);
    LStripSegments(b);
  }

  /** On keys without empty segments the printer is injective. */
  lemma UrlInjective(base: Bytes, a: Bytes, b: Bytes)
    requires NoEmptySegment(a) && NoEmptySegment(b) && Url(base, a) == Url(base, b)
    ensures a == b
  {
    SameUrl(base, a, b);
    JoinSplit(a);
    JoinSplit(b);
  }

  /** Unreserved characters, percent signs and slashes: nothing that would end a URL path. */
  ghost predicate PathCharacters(s: Bytes) {
    forall i :: 0 <= i < |s| ==> Unreserved(s[i]) || s[i] == PERCENT || s[i] == SLASH
  }

  lemma PathIsPlain(key: Bytes)
    ensures PathCharacters(Path(key))
  {
    JoinIsPlain(NonEmpty(Split(LStrip(key))));
  }

  lemma {:induction false} JoinIsPlain(pieces: seq<Bytes>)
    ensures PathCharacters(Join(QuoteAll(pieces)))
  {
    if pieces == [] {
    } else {
      hide Quote;
      QuoteIsPlain(pieces[0]);
      var rest := Join(QuoteAll(pieces[1..]));
      JoinIsPlain(pieces[1..]);
      assert QuoteAll(pieces)[1..] == QuoteAll(pieces[1..]);
      if |pieces| > 1 {
        assert Join(QuoteAll(pieces)) == Quote(pieces[0]) + [SLASH] + rest;
      }
    }
  }
}
