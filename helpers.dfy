/** The allow-list parser of helpers.go (convertStringToIntArray) together
    with the pieces of Go's standard library it relies on, restricted to what
    the parser needs: strings.Split on ",", strings.TrimSpace (ASCII white
    space only) and strconv.ParseInt(s, 10, 64).  strconv.FormatInt(x, 10),
    which renders the Telegram user ids that the bot stores, is modelled here
    too, so that the parser can be shown to read back what it prints. */
module Helpers {
  import opened Wrappers

  const MinInt64: int := -0x8000_0000_0000_0000
  const MaxInt64: int := 0x7FFF_FFFF_FFFF_FFFF

  predicate IsInt64(x: int) { MinInt64 <= x <= MaxInt64 }

  // ---------------------------------------------------------------------
  // strings.TrimSpace, for the ASCII white space characters
  // ---------------------------------------------------------------------

  predicate IsSpace(c: char) {
    c == ' ' || c == '\t' || c == '\n' || c == '\U{0B}' || c == '\U{0C}' || c == '\r'
  }

  function TrimLeft(s: string): (r: string)
    ensures |r| <= |s|
  {
    if s != [] && IsSpace(s[0]) then TrimLeft(s[1..]) else s
  }

  function TrimRight(s: string): (r: string)
    ensures |r| <= |s|
  {
    if s != [] && IsSpace(s[|s| - 1]) then TrimRight(s[..|s| - 1]) else s
  }

  /** strings.TrimSpace: strips leading and trailing white space. */
  function TrimSpace(s: string): (r: string)
    ensures |r| <= |s|
  {
    TrimRight(TrimLeft(s))
  }

  /** TrimLeft keeps a suffix of its input, what it drops is all white
      space, and what it keeps does not start with white space. */
  lemma {:induction false} TrimLeftSpec(s: string)
    ensures var r := TrimLeft(s);
      && r == s[|s| - |r|..]
      && (forall i :: 0 <= i < |s| - |r| ==> IsSpace(s[i]))
      && (r == [] || !IsSpace(r[0]))
  {
    if s != [] && IsSpace(s[0]) {
      TrimLeftSpec(s[1..]);
    }
  }

  /** TrimRight keeps a prefix of its input, what it drops is all white
      space, and what it keeps does not end with white space. */
  lemma {:induction false} TrimRightSpec(s: string)
    ensures var r := TrimRight(s);
      && r == s[..|r|]
      && (forall i :: |r| <= i < |s| ==> IsSpace(s[i]))
      && (r == [] || !IsSpace(r[|r| - 1]))
  {
    if s != [] && IsSpace(s[|s| - 1]) {
      TrimRightSpec(s[..|s| - 1]);
    }
  }

  /** TrimSpace keeps a contiguous part s[k..k + |r|] of its input, exactly
      the white space around it is dropped, and the part kept neither starts
      nor ends with white space. */
  lemma TrimSpaceSpec(s: string) returns (k: nat)
    ensures var r := TrimSpace(s);
      && k + |r| <= |s|
      && r == s[k..k + |r|]
      && (forall i :: 0 <= i < k ==> IsSpace(s[i]))
      && (forall i :: k + |r| <= i < |s| ==> IsSpace(s[i]))
      && (r == [] || (!IsSpace(r[0]) && !IsSpace(r[|r| - 1])))
  {
    var l := TrimLeft(s);
    TrimLeftSpec(s);
    TrimRightSpec(l);
    k := |s| - |l|;
    var r := TrimRight(l);
    assert r == l[..|r|];
    if r != [] {
      assert r[0] == l[0];
    }
    forall i | k + |r| <= i < |s| ensures IsSpace(s[i]) {
      assert s[i] == l[i - k];
    }
  }

  /** A string that neither starts nor ends with white space is left alone. */
  lemma TrimSpaceKeepsTrimmed(s: string)
    requires s == [] || (!IsSpace(s[0]) && !IsSpace(s[|s| - 1]))
    ensures TrimSpace(s) == s
  {
  }

  // ---------------------------------------------------------------------
  // strings.Split(s, ",") and its inverse strings.Join(parts, ",")
  // ---------------------------------------------------------------------

  function CommaCount(s: string): nat {
    if s == [] then 0 else (if s[0] == ',' then 1 else 0) + CommaCount(s[1..])
  }

  /** Go's strings.Split with the separator ",": one piece more than there
      are commas (so the empty string gives one empty piece), and no piece
      holds a comma. */
  function Split(s: string): (r: seq<string>)
    ensures |r| == CommaCount(s) + 1
    ensures forall i :: 0 <= i < |r| ==> ',' !in r[i]
  {
    if s == [] then [[]]
    else
      var rest := Split(s[1..]);
      if s[0] == ',' then [[]] + rest
      else [[s[0]] + rest[0]] + rest[1..]
  }

  function Join(parts: seq<string>): string {
    if parts == [] then []
    else if |parts| == 1 then parts[0]
    else parts[0] + "," + Join(parts[1..])
  }

  /** Joining the pieces gives back the string that was split. */
  lemma {:induction false} JoinSplit(s: string)
    ensures Join(Split(s)) == s
  {
    if s != [] {
      JoinSplit(s[1..]);
      var rest := Split(s[1..]);
      if s[0] == ',' {
        assert Split(s) == [[]] + rest;
        calc {
          Join(Split(s));
          [] + "," + Join(rest);
          s;
        }
      } else {
        var r := Split(s);
        assert r == [[s[0]] + rest[0]] + rest[1..];
        if |rest| == 1 {
          assert Join(rest) == rest[0];
          assert Join(r) == [s[0]] + rest[0];
        } else {
          assert r[1..] == rest[1..];
          assert Join(rest) == rest[0] + "," + Join(rest[1..]);
          assert Join(r) == ([s[0]] + rest[0]) + "," + Join(rest[1..]);
        }
      }
    }
  }

  /** Splitting a comma-free prefix followed by more text extends the first
      piece of the rest by that prefix. */
  lemma {:induction false} SplitCommaFreePrefix(a: string, rest: string)
    requires ',' !in a
    ensures Split(a + rest) == [a + Split(rest)[0]] + Split(rest)[1..]
  {
    var tail := Split(rest);
    if a != [] {
      assert (a + rest)[0] == a[0] && a[0] != ',';
      assert (a + rest)[1..] == a[1..] + rest;
      SplitCommaFreePrefix(a[1..], rest);
      var inner := Split(a[1..] + rest);
      assert inner[0] == a[1..] + tail[0] && inner[1..] == tail[1..];
      assert Split(a + rest) == [[a[0]] + inner[0]] + inner[1..];
      assert [a[0]] + (a[1..] + tail[0]) == a + tail[0];
    } else {
      assert a + rest == rest;
      assert a + tail[0] == tail[0];
      assert tail == [tail[0]] + tail[1..];
    }
  }

  /** Splitting what was joined gives back the pieces, provided there is at
      least one piece and none of them holds a comma. */
  lemma {:induction false} SplitJoin(parts: seq<string>)
    requires parts != []
    requires forall i :: 0 <= i < |parts| ==> ',' !in parts[i]
    ensures Split(Join(parts)) == parts
  {
    if |parts| == 1 {
      SplitCommaFreePrefix(parts[0], []);
      assert parts[0] + [] == parts[0];
    } else {
      SplitJoin(parts[1..]);
      var tail := "," + Join(parts[1..]);
      assert Join(parts) == parts[0] + tail;
      SplitCommaFreePrefix(parts[0], tail);
      assert tail[1..] == Join(parts[1..]);
      assert Split(tail) == [[]] + parts[1..];
      assert parts[0] + [] == parts[0];
      assert parts == [parts[0]] + parts[1..];
    }
  }

  // ---------------------------------------------------------------------
  // strconv.ParseInt(s, 10, 64) and strconv.FormatInt(x, 10)
  // ---------------------------------------------------------------------

  predicate IsDigit(c: char) { '0' <= c <= '9' }

  predicate AllDigits(s: string) { forall i :: 0 <= i < |s| ==> IsDigit(s[i]) }

  /** The value of a string of decimal digits, most significant first. */
  function DigitsValue(s: string): nat
    requires AllDigits(s)
  {
    if s == [] then 0
    else DigitsValue(s[..|s| - 1]) * 10 + (s[|s| - 1] as int - '0' as int)
  }

  /** Base-10 parse into a signed 64-bit integer: an optional single sign,
      then at least one decimal digit and nothing else; a value outside the
      64-bit range is an error (Go's range error) like malformed text. */
  function ParseInt64(s: string): (r: Option<int>)
    ensures r.Some? ==> IsInt64(r.value)
    ensures s == [] ==> r == None
  {
    if s == [] then None
    else
      var digits := if s[0] == '+' || s[0] == '-' then s[1..] else s;
      if digits == [] || !AllDigits(digits) then None
      else
        var n := DigitsValue(digits);
        if s[0] == '-' then
          (if n <= -MinInt64 then Some(0 - n) else None)
        else
          (if n <= MaxInt64 then Some(n) else None)
  }

  /** Only an optional sign followed by at least one digit parses, and a
      negative value comes from a minus sign. */
  lemma ParseInt64Shape(s: string)
    requires ParseInt64(s).Some?
    ensures |s| >= 1 && AllDigits(s[1..])
    ensures IsDigit(s[0]) || (|s| >= 2 && (s[0] == '+' || s[0] == '-'))
    ensures ParseInt64(s).value < 0 ==> s[0] == '-'
  {
    if s[0] != '+' && s[0] != '-' {
      assert IsDigit(s[0]);
      assert forall i :: 0 <= i < |s[1..]| ==> s[1..][i] == s[i + 1];
    }
  }

  /** Conversely, every optional sign followed by digits parses, to the
      signed value of the digits when it lies in the 64-bit range. */
  lemma ParseInt64Digits(sign: string, digits: string)
    requires sign == "" || sign == "+" || sign == "-"
    requires digits != [] && AllDigits(digits)
    ensures ParseInt64(sign + digits) ==
      if sign == "-" then
        (if DigitsValue(digits) <= -MinInt64 then Some(-(DigitsValue(digits) as int)) else None)
      else
        (if DigitsValue(digits) <= MaxInt64 then Some(DigitsValue(digits)) else None)
  {
    var s := sign + digits;
    if sign == "" {
      assert s == digits;
    } else {
      assert s[0] == sign[0] && s[1..] == digits;
    }
  }

  function DigitChar(d: nat): (c: char)
    requires d < 10
    ensures IsDigit(c) && c as int - '0' as int == d
  {
    ('0' as int + d) as char
  }

  /** The decimal rendering of a natural number: non-empty, digits only. */
  function FormatNat(n: nat): (r: string)
    ensures r != [] && AllDigits(r)
  {
    if n < 10 then [DigitChar(n)] else FormatNat(n / 10) + [DigitChar(n % 10)]
  }

  /** strconv.FormatInt(x, 10): a minus sign for negative numbers, then the
      digits of the magnitude. */
  function FormatInt(x: int): (r: string)
    ensures r != []
    ensures ',' !in r
    ensures !IsSpace(r[0]) && !IsSpace(r[|r| - 1])
  {
    if x < 0 then "-" + FormatNat(-x) else FormatNat(x)
  }

  lemma {:induction false} DigitsValueFormatNat(n: nat)
    ensures DigitsValue(FormatNat(n)) == n
  {
    var r := FormatNat(n);
    if n >= 10 {
      DigitsValueFormatNat(n / 10);
      assert r[..|r| - 1] == FormatNat(n / 10);
    }
  }

  /** Parsing the rendering of a 64-bit integer gives that integer back. */
  lemma ParseFormatInt(x: int)
    requires IsInt64(x)
    ensures ParseInt64(FormatInt(x)) == Some(x)
  {
    var s := FormatInt(x);
    if x < 0 {
      DigitsValueFormatNat(-x);
      assert s[1..] == FormatNat(-x);
    } else {
      DigitsValueFormatNat(x);
    }
  }

  /** Different integers have different renderings, so the decimal user id
      the bot stores identifies one Telegram user. */
  lemma FormatIntInjective(x: int, y: int)
    requires IsInt64(x) && IsInt64(y)
    requires FormatInt(x) == FormatInt(y)
    ensures x == y
  {
    ParseFormatInt(x);
    ParseFormatInt(y);
  }

  // ---------------------------------------------------------------------
  // convertStringToIntArray
  // ---------------------------------------------------------------------

  /** What one piece contributes: its value if it parses after trimming,
      nothing otherwise. */
  function ParsedPiece(piece: string): (r: seq<int>)
    ensures |r| <= 1
  {
    var v := ParseInt64(TrimSpace(piece));
    if v.Some? then [v.value] else []
  }

  /** The values of the pieces that parse after trimming, in input order;
      pieces that do not parse are skipped. */
  function ParsedPieces(pieces: seq<string>): (r: seq<int>)
    ensures |r| <= |pieces|
    ensures forall i :: 0 <= i < |r| ==> IsInt64(r[i])
  {
    if pieces == [] then []
    else ParsedPieces(pieces[..|pieces| - 1]) + ParsedPiece(pieces[|pieces| - 1])
  }

  lemma ParsedPiecesSnoc(pieces: seq<string>, piece: string)
    ensures ParsedPieces(pieces + [piece]) == ParsedPieces(pieces) + ParsedPiece(piece)
  {
    assert (pieces + [piece])[..|pieces|] == pieces;
  }

  /** The parsed allow-list of a comma-separated string. */
  function AllowListOf(s: string): seq<int> {
    ParsedPieces(Split(s))
  }

  /** One more piece of the scan. */
  lemma ParsedPiecesStep(pieces: seq<string>, i: nat)
    requires i < |pieces|
    ensures ParsedPieces(pieces[..i + 1]) == ParsedPieces(pieces[..i]) + ParsedPiece(pieces[i])
  {
    assert pieces[..i + 1][..i] == pieces[..i];
  }

  method ConvertStringToIntArray(arrString: string) returns (intArr: seq<int>)
    ensures intArr == AllowListOf(arrString)
  {
    intArr := [];
    var stringSlice := Split(arrString);
    var i := 0;
    while i < |stringSlice|
      invariant 0 <= i <= |stringSlice|
      invariant intArr == ParsedPieces(stringSlice[..i])
    {
      var trimmed := TrimSpace(stringSlice[i]);
      var intValue := ParseInt64(trimmed);
      ParsedPiecesStep(stringSlice, i);
      if intValue.Some? {
        intArr := intArr + [intValue.value];
      }
      i := i + 1;
    }
    assert stringSlice[..i] == stringSlice;
  }

  /** At most one value per comma-separated piece, each a 64-bit integer. */
  lemma AllowListBounds(s: string)
    ensures |AllowListOf(s)| <= CommaCount(s) + 1
    ensures forall i :: 0 <= i < |AllowListOf(s)| ==> IsInt64(AllowListOf(s)[i])
  {
  }

  /** When no piece parses, the result is empty. */
  lemma {:induction false} ParsedPiecesNoneValid(pieces: seq<string>)
    requires forall i :: 0 <= i < |pieces| ==> ParsedPiece(pieces[i]) == []
    ensures ParsedPieces(pieces) == []
  {
    if pieces != [] {
      ParsedPiecesNoneValid(pieces[..|pieces| - 1]);
    }
  }

  /** The empty setting means the empty allow-list: its single piece is
      empty and does not parse. */
  lemma EmptyAllowList()
    ensures AllowListOf("") == []
  {
    assert Split("") == [[]];
  }

  /** The decimal renderings of a list of integers, in order. */
  function FormatInts(xs: seq<int>): (r: seq<string>)
    ensures |r| == |xs|
    ensures forall i :: 0 <= i < |xs| ==> r[i] == FormatInt(xs[i])
  {
    seq(|xs|, i requires 0 <= i < |xs| => FormatInt(xs[i]))
  }

  lemma PieceRoundTrip(x: int)
    requires IsInt64(x)
    ensures ParseInt64(TrimSpace(FormatInt(x))) == Some(x)
    ensures ParsedPiece(FormatInt(x)) == [x]
  {
    TrimSpaceKeepsTrimmed(FormatInt(x));
    ParseFormatInt(x);
  }

  /** The values of the pieces, one group per piece, in order. */
  function Concat(rs: seq<seq<int>>): seq<int> {
    if rs == [] then [] else Concat(rs[..|rs| - 1]) + rs[|rs| - 1]
  }

  lemma {:induction false} ConcatSingletons(rs: seq<seq<int>>, xs: seq<int>)
    requires |rs| == |xs|
    requires forall i :: 0 <= i < |xs| ==> rs[i] == [xs[i]]
    ensures Concat(rs) == xs
  {
    if xs != [] {
      var n := |xs| - 1;
      ConcatSingletons(rs[..n], xs[..n]);
      assert xs == xs[..n] + [xs[n]];
    }
  }

  function PieceResults(pieces: seq<string>): (rs: seq<seq<int>>)
    ensures |rs| == |pieces|
    ensures forall i :: 0 <= i < |pieces| ==> rs[i] == ParsedPiece(pieces[i])
  {
    seq(|pieces|, i requires 0 <= i < |pieces| => ParsedPiece(pieces[i]))
  }

  lemma {:induction false} ParsedPiecesConcat(pieces: seq<string>)
    ensures ParsedPieces(pieces) == Concat(PieceResults(pieces))
  {
    if pieces != [] {
      var n := |pieces| - 1;
      ParsedPiecesConcat(pieces[..n]);
      assert PieceResults(pieces)[..n] == PieceResults(pieces[..n]);
    }
  }

  /** Pieces each of which parses to one value yield those values, in
      order. */
  lemma ParsedPiecesPointwise(pieces: seq<string>, xs: seq<int>)
    requires |pieces| == |xs|
    requires forall i :: 0 <= i < |xs| ==> ParsedPiece(pieces[i]) == [xs[i]]
    ensures ParsedPieces(pieces) == xs
  {
    ParsedPiecesConcat(pieces);
    ConcatSingletons(PieceResults(pieces), xs);
  }

  lemma ParsedFormatted(xs: seq<int>)
    requires forall i :: 0 <= i < |xs| ==> IsInt64(xs[i])
    ensures ParsedPieces(FormatInts(xs)) == xs
  {
    forall i | 0 <= i < |xs| ensures ParsedPiece(FormatInts(xs)[i]) == [xs[i]] {
      PieceRoundTrip(xs[i]);
    }
    ParsedPiecesPointwise(FormatInts(xs), xs);
  }

  /** Rendering 64-bit integers in decimal, joining them with commas and
      parsing the result gives back the same list, also for the empty list. */
  lemma FormatParseRoundTrip(xs: seq<int>)
    requires forall i :: 0 <= i < |xs| ==> IsInt64(xs[i])
    ensures AllowListOf(Join(FormatInts(xs))) == xs
  {
    if xs == [] {
      EmptyAllowList();
      assert Join(FormatInts(xs)) == "";
    } else {
      SplitJoin(FormatInts(xs));
      ParsedFormatted(xs);
    }
  }

  lemma JoinTwo(a: string, b: string)
    ensures Join([a, b]) == a + "," + b
  {
    assert [a, b][1..] == [b];
  }

  lemma JoinThree(a: string, b: string, c: string)
    ensures Join([a, b, c]) == a + "," + b + "," + c
  {
    assert [a, b, c][1..] == [b, c];
    JoinTwo(b, c);
  }

  lemma SmallRenderings()
    ensures FormatInt(123) == "123" && FormatInt(456) == "456" && FormatInt(789) == "789"
  {
    assert FormatNat(12) == FormatNat(1) + "2";
    assert FormatNat(123) == FormatNat(12) + "3";
    assert FormatNat(456) == FormatNat(45) + "6" == FormatNat(4) + "5" + "6";
    assert FormatNat(789) == FormatNat(78) + "9" == FormatNat(7) + "8" + "9";
  }

  lemma DocExampleRendering()
    ensures Join(FormatInts([123, 456, 789])) == "123,456,789"
  {
    SmallRenderings();
    assert FormatInts([123, 456, 789]) == ["123", "456", "789"];
    JoinThree("123", "456", "789");
  }

  /** The example of the doc comment. */
  lemma DocExample()
    ensures AllowListOf("123,456,789") == [123, 456, 789]
  {
    FormatParseRoundTrip([123, 456, 789]);
    DocExampleRendering();
  }

  predicate AllSpace(w: string) { forall i :: 0 <= i < |w| ==> IsSpace(w[i]) }

  lemma {:induction false} TrimLeftPadding(w: string, x: string)
    requires AllSpace(w)
    requires x == [] || !IsSpace(x[0])
    ensures TrimLeft(w + x) == x
  {
    if w != [] {
      assert (w + x)[1..] == w[1..] + x;
      TrimLeftPadding(w[1..], x);
    } else {
      assert w + x == x;
    }
  }

  lemma {:induction false} TrimRightPadding(x: string, w: string)
    requires AllSpace(w)
    requires x == [] || !IsSpace(x[|x| - 1])
    ensures TrimRight(x + w) == x
  {
    if w != [] {
      assert (x + w)[..|x + w| - 1] == x + w[..|w| - 1];
      TrimRightPadding(x, w[..|w| - 1]);
    } else {
      assert x + w == x;
    }
  }

  /** White space around a piece is ignored: a piece padded on both sides
      with white space parses as the piece itself. */
  lemma SurroundingSpaceIgnored(w1: string, p: string, w2: string)
    requires AllSpace(w1) && AllSpace(w2)
    requires p == [] || (!IsSpace(p[0]) && !IsSpace(p[|p| - 1]))
    ensures TrimSpace(w1 + p + w2) == p
    ensures ParsedPiece(w1 + p + w2) == ParsedPiece(p)
  {
    if p == [] {
      assert w1 + p + w2 == w1 + w2;
      assert AllSpace(w1 + w2);
      TrimLeftPadding(w1 + w2, []);
      assert w1 + w2 + [] == w1 + w2;
      assert TrimLeft(w1 + w2) == [];
    } else {
      assert w1 + p + w2 == w1 + (p + w2);
      TrimLeftPadding(w1, p + w2);
      TrimRightPadding(p, w2);
    }
  }

  /** An empty piece, as between two adjacent commas, contributes nothing,
      and neither does any piece that fails to parse; the scan goes on. */
  lemma InvalidPieceSkipped(pieces: seq<string>, piece: string)
    requires ParseInt64(TrimSpace(piece)).None?
    ensures ParsedPieces(pieces + [piece]) == ParsedPieces(pieces)
    ensures ParsedPiece("") == []
  {
    ParsedPiecesSnoc(pieces, piece);
  }
}
