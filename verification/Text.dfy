/** Hex, decimal, words and lines: the text of the index file (`crates/opencsv-cbf/src/hash.rs`, `scan.rs`). */
module Text {
  import opened Wrappers
  import opened Wire

  // -- hex ---------------------------------------------------------------------------

  function HexChar(d: nat): char
    requires d < 16
  {
    if d < 10 then ('0' as int + d) as char else ('a' as int + d - 10) as char
  }

  function HexValue(c: char): Option<nat> {
    if '0' <= c <= '9' then Some(c as int - '0' as int)
    else if 'a' <= c <= 'f' then Some(c as int - 'a' as int + 10)
    else if 'A' <= c <= 'F' then Some(c as int - 'A' as int + 10)
    else None
  }

  function ToHex(bytes: Bytes): (s: string)
    ensures |s| == 2 * |bytes|
  {
    if bytes == [] then [] else [HexChar(bytes[0] / 16), HexChar(bytes[0] % 16)] + ToHex(bytes[1..])
  }

  /** `u8::from_str_radix` of two characters: a leading plus is allowed. */
  function HexPair(a: char, b: char): (r: Option<byte>)
    ensures r.Some? ==> 0 <= r.value < 256
  {
    if a == '+' then
      match HexValue(b)
      case None => None
      case Some(y) => LowNibble(b); Some(y)
    else
      match (HexValue(a), HexValue(b))
      case (Some(x), Some(y)) => LowNibble(a); LowNibble(b); Some(16 * x + y)
      case _ => None
  }

  lemma LowNibble(c: char)
    ensures HexValue(c).Some? ==> HexValue(c).value < 16
  {
  }

  function HexBytes(s: string): Option<Bytes> {
    if s == [] then Some([])
    else if |s| == 1 then None
    else
      var b :- HexPair(s[0], s[1]);
      var rest :- HexBytes(s[2..]);
      Some([b] + rest)
  }

  /** `from_hex`, white space around the digits allowed. */
  function FromHex(s: string): Option<Bytes> {
    HexBytes(Trim(s))
  }

  lemma {:induction false} HexBytesRoundTrip(bytes: Bytes)
    ensures HexBytes(ToHex(bytes)) == Some(bytes)
  {
    if bytes != [] {
      NibbleRoundTrip(bytes[0] / 16);
      NibbleRoundTrip(bytes[0] % 16);
      HexBytesRoundTrip(bytes[1..]);
      assert ToHex(bytes)[2..] == ToHex(bytes[1..]);
      assert bytes == [bytes[0]] + bytes[1..];
    }
  }

  lemma HexRoundTrip(bytes: Bytes)
    ensures FromHex(ToHex(bytes)) == Some(bytes)
  {
    hide HexBytes, ToHex;
    HexBytesRoundTrip(bytes);
    if bytes != [] {
      HexIsWord(bytes);
      NothingToTrim(ToHex(bytes));
    } else {
      assert ToHex([]) == [];
    }
  }

  lemma NibbleRoundTrip(d: nat)
    requires d < 16
    ensures HexValue(HexChar(d)) == Some(d) && IsWordChar(HexChar(d)) && HexChar(d) != '+'
  {
  }

  // -- decimal -------------------------------------------------------------------------

  function DigitChar(d: nat): char
    requires d < 10
  {
    ('0' as int + d) as char
  }

  function Decimal(n: nat): (s: string)
    ensures s != []
  {
    if n < 10 then [DigitChar(n)] else Decimal(n / 10) + [DigitChar(n % 10)]
  }

  function DigitsValue(s: string): Option<nat> {
    if s == [] then Some(0)
    else
      var high :- DigitsValue(s[..|s| - 1]);
      var c := s[|s| - 1];
      if '0' <= c <= '9' then Some(10 * high + (c as int - '0' as int)) else None
  }

  /** `str::parse` for an unsigned integer below `limit`. */
  function ParseNumber(s: string, limit: nat): (r: Option<nat>)
    ensures r.Some? ==> r.value < limit
  {
    var digits := if s != [] && s[0] == '+' then s[1..] else s;
    if digits == [] then None
    else
      var n :- DigitsValue(digits);
      if n < limit then Some(n) else None
  }

  lemma {:induction false} DecimalDigits(n: nat)
    ensures DigitsValue(Decimal(n)) == Some(n)
    ensures forall i | 0 <= i < |Decimal(n)| :: '0' <= Decimal(n)[i] <= '9'
  {
    if n < 10 {
      assert Decimal(n)[..0] == [];
    } else {
      DecimalDigits(n / 10);
      assert Decimal(n)[..|Decimal(n)| - 1] == Decimal(n / 10);
    }
  }

  lemma DecimalRoundTrip(n: nat, limit: nat)
    requires n < limit
    ensures ParseNumber(Decimal(n), limit) == Some(n)
    ensures IsWord(Decimal(n))
  {
    DecimalDigits(n);
    assert '0' <= Decimal(n)[0] <= '9';
  }

  // -- words -------------------------------------------------------------------------------

  predicate IsSpace(c: char) {
    c in {' ', '\t', '\n', '\r'}
  }

  predicate IsWordChar(c: char) {
    !IsSpace(c)
  }

  predicate IsWord(w: string) {
    w != [] && forall i | 0 <= i < |w| :: IsWordChar(w[i])
  }

  function TrimStart(s: string): string {
    if s != [] && IsSpace(s[0]) then TrimStart(s[1..]) else s
  }

  function TrimEnd(s: string): string {
    if s != [] && IsSpace(s[|s| - 1]) then TrimEnd(s[..|s| - 1]) else s
  }

  function Trim(s: string): string {
    TrimEnd(TrimStart(s))
  }

  lemma NothingToTrim(s: string)
    requires s == [] || (!IsSpace(s[0]) && !IsSpace(s[|s| - 1]))
    ensures Trim(s) == s
  {
  }

  lemma {:induction false} HexIsWord(bytes: Bytes)
    requires bytes != []
    ensures IsWord(ToHex(bytes))
  {
    NibbleRoundTrip(bytes[0] / 16);
    NibbleRoundTrip(bytes[0] % 16);
    if |bytes| > 1 {
      HexIsWord(bytes[1..]);
    }
    var s := ToHex(bytes);
    forall i | 0 <= i < |s| ensures IsWordChar(s[i]) {
      assert i >= 2 ==> s[i] == ToHex(bytes[1..])[i - 2];
    }
  }

  function WordEnd(s: string): (k: nat)
    ensures k <= |s| && (s != [] && IsWordChar(s[0]) ==> k > 0)
  {
    if s == [] || IsSpace(s[0]) then 0 else 1 + WordEnd(s[1..])
  }

  /** `split_whitespace` */
  function Words(s: string): seq<string>
    decreases |s|
  {
    if s == [] then []
    else if IsSpace(s[0]) then Words(s[1..])
    else [s[..WordEnd(s)]] + Words(s[WordEnd(s)..])
  }

  function Unwords(ws: seq<string>): string {
    if ws == [] then [] else if |ws| == 1 then ws[0] else ws[0] + " " + Unwords(ws[1..])
  }

  lemma {:induction false} WordEndIs(w: string, rest: string)
    requires forall i | 0 <= i < |w| :: IsWordChar(w[i])
    requires rest == [] || IsSpace(rest[0])
    ensures WordEnd(w + rest) == |w|
  {
    if w == [] {
      assert w + rest == rest;
    } else {
      assert (w + rest)[1..] == w[1..] + rest;
      WordEndIs(w[1..], rest);
    }
  }

  lemma {:induction false} WordsRoundTrip(ws: seq<string>)
    requires forall w | w in ws :: IsWord(w)
    ensures Words(Unwords(ws)) == ws
  {
    hide Words, WordEnd;
    if ws == [] {
      NoWords();
    } else if |ws| == 1 {
      assert ws[0] in ws;
      NoWords();
      FirstWord(ws[0], []);
      assert ws[0] + [] == ws[0] && ws == [ws[0]];
    } else {
      assert ws[0] in ws;
      WordsRoundTrip(ws[1..]);
      SkipSpace(Unwords(ws[1..]));
      FirstWord(ws[0], " " + Unwords(ws[1..]));
      assert ws[0] + (" " + Unwords(ws[1..])) == Unwords(ws);
      assert ws == [ws[0]] + ws[1..];
    }
  }

  lemma NoWords()
    ensures Words([]) == []
  {
  }

  lemma SkipSpace(s: string)
    ensures Words(" " + s) == Words(s)
  {
    assert (" " + s)[1..] == s;
  }

  lemma FirstWord(w: string, rest: string)
    requires IsWord(w) && (rest == [] || IsSpace(rest[0]))
    ensures Words(w + rest) == [w] + Words(rest)
  {
    WordEndIs(w, rest);
    assert (w + rest)[0] == w[0];
    assert (w + rest)[..|w|] == w && (w + rest)[|w|..] == rest;
  }

  // -- lines ----------------------------------------------------------------------------------

  function LineEnd(s: string): (k: nat)
    ensures k <= |s| && (k < |s| ==> s[k] == '\n') && forall i | 0 <= i < k :: s[i] != '\n'
  {
    if s == [] || s[0] == '\n' then 0 else 1 + LineEnd(s[1..])
  }

  function WithoutReturn(line: string): string {
    if line != [] && line[|line| - 1] == '\r' then line[..|line| - 1] else line
  }

  /** `str::lines` */
  function Lines(s: string): seq<string>
    decreases |s|
  {
    if s == [] then []
    else
      var k := LineEnd(s);
      [WithoutReturn(s[..k])] + if k == |s| then [] else Lines(s[k + 1..])
  }

  function Unlines(ls: seq<string>): string {
    if ls == [] then [] else ls[0] + "\n" + Unlines(ls[1..])
  }

  predicate IsLine(l: string) {
    forall i | 0 <= i < |l| :: l[i] != '\n' && l[i] != '\r'
  }

  lemma LineEndIs(l: string, rest: string)
    requires forall i | 0 <= i < |l| :: l[i] != '\n'
    ensures LineEnd(l + "\n" + rest) == |l|
  {
    var s := l + "\n" + rest;
    assert s[|l|] == '\n';
    LineEndAtLeast(s, |l|);
  }

  lemma {:induction false} LineEndAtLeast(s: string, m: nat)
    requires m <= |s| && forall i | 0 <= i < m :: s[i] != '\n'
    ensures LineEnd(s) >= m
  {
    if m > 0 {
      LineEndAtLeast(s[1..], m - 1);
    }
  }

  lemma {:induction false} LinesRoundTrip(ls: seq<string>)
    requires forall l | l in ls :: IsLine(l)
    ensures Lines(Unlines(ls)) == ls
  {
    if ls != [] {
      var l, rest := ls[0], Unlines(ls[1..]);
      assert l in ls;
      LineEndIs(l, rest);
      var s := l + "\n" + rest;
      assert s[..|l|] == l && s[|l| + 1..] == rest;
      LinesRoundTrip(ls[1..]);
      assert ls == [l] + ls[1..];
    }
  }

  lemma {:induction false} UnlinesConcat(a: seq<string>, b: seq<string>)
    ensures Unlines(a + b) == Unlines(a) + Unlines(b)
  {
    if a == [] {
      assert a + b == b;
    } else {
      assert (a + b)[1..] == a[1..] + b;
      UnlinesConcat(a[1..], b);
    }
  }

  lemma {:induction false} WordsMakeALine(ws: seq<string>)
    requires forall w | w in ws :: IsWord(w)
    ensures IsLine(Unwords(ws))
  {
    if |ws| == 1 {
      assert ws[0] in ws;
    } else if |ws| > 1 {
      assert ws[0] in ws;
      WordsMakeALine(ws[1..]);
    }
  }
}
