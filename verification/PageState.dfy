/** The page state kept in session storage: percent-encoded `key=value` pairs
    joined by `&` (crates/frontend/src/navigation_context.rs).  Percent-encoding
    is that of sections 2.1 and 2.3 of RFC 3986, as the `urlencoding` crate
    applies it; the crate itself is not part of this model. */
module PageState {
  import opened Basics
  import opened Utf8

  // ---- Percent-encoding of bytes ------------------------------------------------------

  /** Section 2.3 of RFC 3986. */
  predicate Unreserved(b: Byte) {
    || 'a' as int <= b <= 'z' as int || 'A' as int <= b <= 'Z' as int || '0' as int <= b <= '9' as int
    || b == '-' as int || b == '.' as int || b == '_' as int || b == '~' as int
  }

  const PERCENT: Byte := '%' as int

  function HexDigit(n: nat): Byte
    requires n < 16
  {
    if n < 10 then '0' as int + n else 'A' as int + (n - 10)
  }

  function FromHexDigit(b: Byte): Option<nat> {
    if '0' as int <= b <= '9' as int then Some(b - '0' as int)
    else if 'A' as int <= b <= 'F' as int then Some(b - 'A' as int + 10)
    else if 'a' as int <= b <= 'f' as int then Some(b - 'a' as int + 10)
    else None
  }

  function Escape(b: seq<Byte>): seq<Byte> {
    if b == [] then []
    else (if Unreserved(b[0]) then [b[0]] else [PERCENT, HexDigit(b[0] / 16), HexDigit(b[0] % 16)]) + Escape(b[1..])
  }

  /** A percent sign that no two hex digits follow stands for itself. */
  function Unescape(b: seq<Byte>): seq<Byte> {
    if b == [] then []
    else if b[0] == PERCENT && |b| >= 3 && FromHexDigit(b[1]).Some? && FromHexDigit(b[2]).Some? then
      [FromHexDigit(b[1]).value * 16 + FromHexDigit(b[2]).value] + Unescape(b[3..])
    else [b[0]] + Unescape(b[1..])
  }

  lemma {:induction false} UnescapeEscape(b: seq<Byte>)
    ensures Unescape(Escape(b)) == b
  {
    if b != [] {
      UnescapeEscape(b[1..]);
      var rest := Escape(b[1..]);
      if Unreserved(b[0]) {
        assert ([b[0]] + rest)[1..] == rest;
      } else {
        var e := [PERCENT, HexDigit(b[0] / 16), HexDigit(b[0] % 16)];
        assert (e + rest)[3..] == rest && (e + rest)[..3] == e;
        assert FromHexDigit(e[1]) == Some(b[0] / 16) && FromHexDigit(e[2]) == Some(b[0] % 16);
      }
    }
  }

  // ---- Percent-encoding of strings -----------------------------------------------------

  function Ascii(b: seq<Byte>): string
    requires forall i :: 0 <= i < |b| ==> b[i] < 128
  {
    seq(|b|, i requires 0 <= i < |b| => b[i] as char)
  }

  lemma {:induction false} EscapeIsPlain(b: seq<Byte>)
    ensures forall i :: 0 <= i < |Escape(b)| ==> Unreserved(Escape(b)[i]) || Escape(b)[i] == PERCENT
  {
    if b != [] {
      EscapeIsPlain(b[1..]);
    }
  }

  /** `urlencoding::encode`. */
  function PercentEncode(s: string): string {
    EscapeIsPlain(Encode(s));
    Ascii(Escape(Encode(s)))
  }

  /** `urlencoding::decode`; `None` when the bytes are not UTF-8. */
  function PercentDecode(s: string): Option<string> {
    Decode(Unescape(Encode(s)))
  }

  lemma {:induction false} EncodeAscii(b: seq<Byte>)
    requires forall i :: 0 <= i < |b| ==> b[i] < 128
    ensures Encode(Ascii(b)) == b
  {
    if b != [] {
      assert Ascii(b)[1..] == Ascii(b[1..]);
      EncodeAscii(b[1..]);
    }
  }

  lemma PercentRoundTrip(s: string)
    ensures PercentDecode(PercentEncode(s)) == Some(s)
  {
    EscapeIsPlain(Encode(s));
    EncodeAscii(Escape(Encode(s)));
    UnescapeEscape(Encode(s));
    DecodeEncode(s);
  }

  /** Encoded text holds no separator, no plus sign and no whitespace. */
  lemma PercentEncodePlain(s: string, c: char)
    requires c in PercentEncode(s)
    ensures c == '%' || Unreserved(c as int)
  {
    EscapeIsPlain(Encode(s));
    var i :| 0 <= i < |PercentEncode(s)| && PercentEncode(s)[i] == c;
  }

  // ---- The encoding itself --------------------------------------------------------------

  const HEX := "0123456789ABCDEF"

  /** Section 2.3 of RFC 3986: the digits 0x30 to 0x39, the letters 0x41 to 0x5A
      and 0x61 to 0x7A, and hyphen, full stop, underscore and tilde. */
  lemma UnreservedExactly(b: Byte)
    ensures Unreserved(b) <==>
              || 0x30 <= b <= 0x39 || 0x41 <= b <= 0x5A || 0x61 <= b <= 0x7A
              || b == 0x2D || b == 0x2E || b == 0x5F || b == 0x7E
  {
  }

  /** Section 2.1: upper-case digits are written, and both cases are read. */
  lemma HexDigits(n: nat)
    requires n < 16
    ensures HexDigit(n) as char == HEX[n]
    ensures FromHexDigit(HexDigit(n)) == Some(n)
    ensures n >= 10 ==> FromHexDigit(HexDigit(n) + 32) == Some(n)
  {
    assert HEX[0] == '0' && HEX[1] == '1' && HEX[2] == '2' && HEX[3] == '3' && HEX[4] == '4' && HEX[5] == '5';
    assert HEX[6] == '6' && HEX[7] == '7' && HEX[8] == '8' && HEX[9] == '9' && HEX[10] == 'A' && HEX[11] == 'B';
    assert HEX[12] == 'C' && HEX[13] == 'D' && HEX[14] == 'E' && HEX[15] == 'F';
  }

  /** A byte is written as itself or as a percent sign and its two digits, and the
      bytes of a text one after the other. */
  lemma EscapeBytes(b: Byte, rest: seq<Byte>)
    ensures Unreserved(b) ==> Escape([b] + rest) == [b] + Escape(rest)
    ensures !Unreserved(b) ==>
              Escape([b] + rest) == ['%' as int, HEX[b / 16] as int, HEX[b % 16] as int] + Escape(rest)
  {
    assert ([b] + rest)[1..] == rest;
    HexDigits(b / 16);
    HexDigits(b % 16);
  }

  /** A percent sign without two hex digits after it stands for itself, and so
      does every other byte. */
  lemma UnescapeBytes(b: Byte, rest: seq<Byte>)
    ensures (b != '%' as int || |rest| < 2 || FromHexDigit(rest[0]).None? || FromHexDigit(rest[1]).None?)
              ==> Unescape([b] + rest) == [b] + Unescape(rest)
  {
    assert ([b] + rest)[1..] == rest;
  }

  // ---- Splitting and joining -------------------------------------------------------------

  /** `str.split(sep)` with the piece read so far in `piece`. */
  function SplitOn(s: string, sep: char, piece: string): seq<string> {
    if s == [] then [piece]
    else if s[0] == sep then [piece] + SplitOn(s[1..], sep, [])
    else SplitOn(s[1..], sep, piece + [s[0]])
  }

  function Join(pieces: seq<string>, sep: char): string {
    if pieces == [] then []
    else if |pieces| == 1 then pieces[0]
    else pieces[0] + [sep] + Join(pieces[1..], sep)
  }

  lemma {:induction false} SplitPiece(p: string, rest: string, sep: char, piece: string)
    requires sep !in p
    ensures SplitOn(p + rest, sep, piece) == SplitOn(rest, sep, piece + p)
  {
    if p == [] {
      assert p + rest == rest && piece + p == piece;
    } else {
      assert (p + rest)[1..] == p[1..] + rest;
      SplitPiece(p[1..], rest, sep, piece + [p[0]]);
      assert piece + [p[0]] + p[1..] == piece + p;
    }
  }

  lemma {:induction false} SplitJoin(pieces: seq<string>, sep: char)
    requires pieces != [] && forall i :: 0 <= i < |pieces| ==> sep !in pieces[i]
    ensures SplitOn(Join(pieces, sep), sep, []) == pieces
  {
    if |pieces| == 1 {
      SplitPiece(pieces[0], [], sep, []);
      assert pieces[0] + [] == pieces[0] && [] + pieces[0] == pieces[0];
    } else {
      var rest := [sep] + Join(pieces[1..], sep);
      assert pieces[0] + [sep] + Join(pieces[1..], sep) == pieces[0] + rest;
      SplitPiece(pieces[0], rest, sep, []);
      assert rest[1..] == Join(pieces[1..], sep) && [] + pieces[0] == pieces[0];
      SplitJoin(pieces[1..], sep);
    }
  }

  /** `splitn(2, '=')`: the text before the first `=`, and after it or empty. */
  function CutAtEquals(s: string): (string, string) {
    if s == [] then ([], [])
    else if s[0] == '=' then ([], s[1..])
    else
      var (k, v) := CutAtEquals(s[1..]);
      ([s[0]] + k, v)
  }

  lemma {:induction false} CutPair(k: string, v: string)
    requires '=' !in k
    ensures CutAtEquals(k + ['='] + v) == (k, v)
  {
    if k == [] {
      assert [] + ['='] + v == ['='] + v;
    } else {
      assert (k + ['='] + v)[1..] == k[1..] + ['='] + v;
      CutPair(k[1..], v);
      assert (k + ['='] + v)[0] == k[0] && [k[0]] + k[1..] == k;
    }
  }

  /** Unicode White_Space, which `str::trim` removes. */
  predicate IsWhitespace(c: char) {
    var n := c as int;
    || 9 <= n <= 13 || n == 32 || n == 0x85 || n == 0xA0 || n == 0x1680 || 0x2000 <= n <= 0x200A
    || n == 0x2028 || n == 0x2029 || n == 0x202F || n == 0x205F || n == 0x3000
  }

  /** `s.trim().is_empty()`. */
  predicate Blank(s: string) {
    forall i :: 0 <= i < |s| ==> IsWhitespace(s[i])
  }

  // ---- The codec ----------------------------------------------------------------------------

  type State = map<string, string>

  datatype Entry = Entry(key: string, value: string)

  function EncodeEntry(e: Entry): string {
    PercentEncode(e.key) + ['='] + PercentEncode(e.value)
  }

  /** `encode_page_state` on the entries in iteration order. */
  function EncodePageState(entries: seq<Entry>): string {
    Join(seq(|entries|, i requires 0 <= i < |entries| => EncodeEntry(entries[i])), '&')
  }

  function DecodeOr(s: string): string {
    PercentDecode(s).GetOr(s)
  }

  function InsertPair(state: State, pair: string): State {
    if Blank(pair) then state
    else
      var (k, v) := CutAtEquals(pair);
      state[DecodeOr(k) := DecodeOr(v)]
  }

  function InsertPairs(pairs: seq<string>): State {
    if pairs == [] then map[] else InsertPair(InsertPairs(pairs[..|pairs| - 1]), pairs[|pairs| - 1])
  }

  function Parse(encoded: string): State {
    if Blank(encoded) then map[] else InsertPairs(SplitOn(encoded, '&', []))
  }

  /** `parse_page_state`. */
  method ParsePageState(encoded: string) returns (state: State)
    ensures state == Parse(encoded)
  {
    state := map[];
    if Blank(encoded) {
      return;
    }
    var pairs := SplitOn(encoded, '&', []);
    var n := 0;
    while n < |pairs|
      invariant 0 <= n <= |pairs|
      invariant state == InsertPairs(pairs[..n])
    {
      assert pairs[..n + 1][..n] == pairs[..n];
      var pair := pairs[n];
      n := n + 1;
      if Blank(pair) {
        continue;
      }
      var (key, value) := CutAtEquals(pair);
      state := state[DecodeOr(key) := DecodeOr(value)];
    }
    assert pairs[..n] == pairs;
  }

  // ---- What parsing means ---------------------------------------------------------------

  /** The text before the first equals sign, and what follows it. */
  lemma {:induction false} CutMeans(s: string)
    ensures var (k, v) := CutAtEquals(s);
            '=' !in k && (s == k + "=" + v || (s == k && v == ""))
  {
    if s != [] && s[0] != '=' {
      CutMeans(s[1..]);
      var (k, v) := CutAtEquals(s[1..]);
      assert s == [s[0]] + s[1..];
      assert [s[0]] + (k + "=" + v) == ([s[0]] + k) + "=" + v;
    }
  }

  /** The pieces are those the ampersands separate. */
  lemma {:induction false} SplitMeans(s: string, piece: string)
    requires '&' !in piece
    ensures Join(SplitOn(s, '&', piece), '&') == piece + s
    ensures forall i :: 0 <= i < |SplitOn(s, '&', piece)| ==> '&' !in SplitOn(s, '&', piece)[i]
    ensures SplitOn(s, '&', piece) != []
  {
    if s != [] {
      assert s == [s[0]] + s[1..];
      if s[0] == '&' {
        SplitMeans(s[1..], []);
        var rest := SplitOn(s[1..], '&', []);
        assert ([piece] + rest)[1..] == rest && [] + s[1..] == s[1..];
        assert piece + ['&'] + s[1..] == piece + s;
      } else {
        SplitMeans(s[1..], piece + [s[0]]);
        assert piece + [s[0]] + s[1..] == piece + s;
      }
    } else {
      assert piece + s == piece;
    }
  }

  function KeyOf(pair: string): string {
    DecodeOr(CutAtEquals(pair).0)
  }

  function ValueOf(pair: string): string {
    DecodeOr(CutAtEquals(pair).1)
  }

  /** The pair is not blank and has this key. */
  predicate Names(pair: string, key: string) {
    !Blank(pair) && KeyOf(pair) == key
  }

  /** Pair `i` decides its key: no later pair has it. */
  ghost predicate Decides(pairs: seq<string>, i: nat, key: string) {
    i < |pairs| && Names(pairs[i], key) && forall j :: i < j < |pairs| ==> !Names(pairs[j], key)
  }

  ghost predicate Decided(pairs: seq<string>, key: string) {
    exists i: nat :: Decides(pairs, i, key)
  }

  lemma DecidesEarlier(init: seq<string>, p: string, i: nat, key: string)
    ensures Decides(init + [p], i, key) <==>
              if Names(p, key) then i == |init| else Decides(init, i, key)
  {
    var all := init + [p];
    assert all[|init|] == p && forall j :: 0 <= j < |init| ==> all[j] == init[j];
  }

  lemma InsertPairMeans(state: State, pair: string, key: string)
    ensures key in InsertPair(state, pair) <==> Names(pair, key) || key in state
    ensures Names(pair, key) ==> InsertPair(state, pair)[key] == ValueOf(pair)
    ensures !Names(pair, key) && key in state ==> InsertPair(state, pair)[key] == state[key]
  {
  }

  /** The state has the decided keys, each with the value of the pair that decides it. */
  ghost predicate StateOf(state: State, pairs: seq<string>, key: string) {
    && (key in state <==> Decided(pairs, key))
    && (forall i: nat :: Decides(pairs, i, key) ==> key in state && state[key] == ValueOf(pairs[i]))
  }

  lemma StateStep(state: State, init: seq<string>, p: string, key: string)
    requires StateOf(state, init, key)
    ensures StateOf(InsertPair(state, p), init + [p], key)
  {
    InsertPairMeans(state, p, key);
    forall i: nat ensures Decides(init + [p], i, key) <==> if Names(p, key) then i == |init| else Decides(init, i, key) {
      DecidesEarlier(init, p, i, key);
    }
    assert (init + [p])[|init|] == p;
    if Names(p, key) {
      assert Decides(init + [p], |init|, key);
    }
  }

  lemma {:induction false} PairsMean(pairs: seq<string>, key: string)
    ensures StateOf(InsertPairs(pairs), pairs, key)
  {
    if pairs != [] {
      var n := |pairs| - 1;
      PairsMean(pairs[..n], key);
      assert pairs == pairs[..n] + [pairs[n]];
      StateStep(InsertPairs(pairs[..n]), pairs[..n], pairs[n], key);
    }
  }

  /** A text that is not blank parses to the last value of every decoded key among
      its pairs that are not blank; a blank text to nothing. */
  lemma ParseMeans(encoded: string, key: string)
    ensures Blank(encoded) ==> Parse(encoded) == map[]
    ensures !Blank(encoded) ==>
              var pairs := SplitOn(encoded, '&', []);
              && (key in Parse(encoded) <==> Decided(pairs, key))
              && (forall i: nat :: Decides(pairs, i, key) ==>
                    key in Parse(encoded) && Parse(encoded)[key] == ValueOf(pairs[i]))
  {
    var pairs := SplitOn(encoded, '&', []);
    PairsMean(pairs, key);
    assert !Blank(encoded) ==> Parse(encoded) == InsertPairs(pairs);
  }

  /** Text that is not valid percent-encoded UTF-8 stays as it is. */
  lemma UndecodableStays(s: string)
    ensures PercentDecode(s).None? ==> DecodeOr(s) == s
    ensures PercentDecode(s).Some? ==> DecodeOr(s) == PercentDecode(s).value
  {
  }

  /** What is stored for one entry, and for several. */
  lemma EncodedShape(e: Entry, f: Entry)
    ensures EncodePageState([]) == "" && EncodePageState([e]) == PercentEncode(e.key) + "=" + PercentEncode(e.value)
    ensures EncodePageState([e, f]) ==
              PercentEncode(e.key) + "=" + PercentEncode(e.value) + "&" + PercentEncode(f.key) + "=" + PercentEncode(f.value)
  {
    var one := seq(|[e]|, i requires 0 <= i < |[e]| => EncodeEntry([e][i]));
    assert one == [EncodeEntry(e)];
    var two := seq(|[e, f]|, i requires 0 <= i < |[e, f]| => EncodeEntry([e, f][i]));
    assert two == [EncodeEntry(e), EncodeEntry(f)] && two[1..] == [EncodeEntry(f)];
    assert Join(two[1..], '&') == EncodeEntry(f) && Join(two, '&') == EncodeEntry(e) + ['&'] + EncodeEntry(f);
    assert EncodeEntry(e) + ['&'] + EncodeEntry(f) ==
           PercentEncode(e.key) + "=" + PercentEncode(e.value) + "&" + PercentEncode(f.key) + "=" + PercentEncode(f.value);
  }

  /** `entries` lists the entries of the map, in any order. */
  ghost predicate Lists(entries: seq<Entry>, m: State) {
    && (forall i :: 0 <= i < |entries| ==> entries[i].key in m && m[entries[i].key] == entries[i].value)
    && (forall k :: k in m ==> exists i :: 0 <= i < |entries| && entries[i].key == k)
  }

  lemma EncodedEntry(e: Entry)
    ensures '&' !in EncodeEntry(e) && !Blank(EncodeEntry(e))
    ensures forall s: State :: InsertPair(s, EncodeEntry(e)) == s[e.key := e.value]
  {
    var k, v := PercentEncode(e.key), PercentEncode(e.value);
    assert '&' !in k && '=' !in k by {
      if '&' in k {
        PercentEncodePlain(e.key, '&');
      }
      if '=' in k {
        PercentEncodePlain(e.key, '=');
      }
    }
    assert '&' !in v by {
      if '&' in v {
        PercentEncodePlain(e.value, '&');
      }
    }
    assert EncodeEntry(e)[|k|] == '=';
    CutPair(k, v);
    PercentRoundTrip(e.key);
    PercentRoundTrip(e.value);
  }

  function FromEntries(entries: seq<Entry>): State {
    if entries == [] then map[]
    else FromEntries(entries[..|entries| - 1])[entries[|entries| - 1].key := entries[|entries| - 1].value]
  }

  lemma {:induction false} InsertEncoded(entries: seq<Entry>)
    ensures InsertPairs(seq(|entries|, i requires 0 <= i < |entries| => EncodeEntry(entries[i]))) == FromEntries(entries)
  {
    if entries != [] {
      var init := entries[..|entries| - 1];
      var pairs := seq(|entries|, i requires 0 <= i < |entries| => EncodeEntry(entries[i]));
      assert pairs[..|pairs| - 1] == seq(|init|, i requires 0 <= i < |init| => EncodeEntry(init[i]));
      InsertEncoded(init);
      EncodedEntry(entries[|entries| - 1]);
    }
  }

  lemma {:induction false} FromEntriesValues(entries: seq<Entry>, m: State)
    requires forall i :: 0 <= i < |entries| ==> entries[i].key in m && m[entries[i].key] == entries[i].value
    ensures FromEntries(entries).Keys == set i | 0 <= i < |entries| :: entries[i].key
    ensures forall k :: k in FromEntries(entries) ==> k in m && FromEntries(entries)[k] == m[k]
  {
    if entries != [] {
      var init, last := entries[..|entries| - 1], entries[|entries| - 1];
      FromEntriesValues(init, m);
      forall k ensures k in FromEntries(entries) <==> k in set i | 0 <= i < |entries| :: entries[i].key {
        if k in FromEntries(init) {
          var i :| 0 <= i < |init| && init[i].key == k;
          assert entries[i].key == k;
        }
        if i :| 0 <= i < |entries| && entries[i].key == k {
          assert i < |init| ==> init[i].key == k;
        }
      }
    }
  }

  /** The round trip: for every map of strings and every order of its entries,
      parsing what was encoded gives the map back. */
  lemma RoundTrip(m: State, entries: seq<Entry>)
    requires Lists(entries, m)
    ensures Parse(EncodePageState(entries)) == m
  {
    var pairs := seq(|entries|, i requires 0 <= i < |entries| => EncodeEntry(entries[i]));
    FromEntriesValues(entries, m);
    assert FromEntries(entries) == m;
    if entries != [] {
      forall i | 0 <= i < |pairs| ensures '&' !in pairs[i] {
        EncodedEntry(entries[i]);
      }
      SplitJoin(pairs, '&');
      JoinNotBlank(pairs, entries[0]);
      InsertEncoded(entries);
    }
  }

  lemma JoinNotBlank(pairs: seq<string>, e: Entry)
    requires pairs != [] && pairs[0] == EncodeEntry(e)
    ensures !Blank(Join(pairs, '&'))
  {
    var at := |PercentEncode(e.key)|;
    assert pairs[0][at] == '=';
    assert Join(pairs, '&')[at] == '=';
  }
}
