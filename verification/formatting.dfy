/**
 * Text helpers for the generated C source (src/bmp2c/formatting.py): turning a
 * file name into a C identifier, the upper-case macro prefix, and the hex
 * listing of the packed bytes, twelve to a line.
 */
module Formatting {
  import opened Results
  import opened Arith

  // ---------------------------------------------------------------------
  // Identifiers
  // ---------------------------------------------------------------------

  predicate IsUpper(c: char) { 'A' <= c <= 'Z' }

  predicate IsLower(c: char) { 'a' <= c <= 'z' }

  predicate IsDigit(c: char) { '0' <= c <= '9' }

  predicate IsLetter(c: char) { IsUpper(c) || IsLower(c) }

  /** The ASCII class [A-Za-z0-9_] the converter keeps. */
  predicate IsIdentChar(c: char) { IsLetter(c) || IsDigit(c) || c == '_' }

  /**
   * Identifier-shaped: non-empty, identifier characters only, not starting
   * with a digit. C keywords are not excluded, so "int" passes.
   */
  predicate IsIdentifier(s: string) {
    |s| > 0 && (IsLetter(s[0]) || s[0] == '_') && forall i | 0 <= i < |s| :: IsIdentChar(s[i])
  }

  /** Every character outside [A-Za-z0-9_] replaced by '_'. */
  function Underscored(s: string): (r: string)
    ensures |r| == |s|
    ensures forall i | 0 <= i < |s| :: r[i] == if IsIdentChar(s[i]) then s[i] else '_'
  {
    seq(|s|, i requires 0 <= i < |s| => if IsIdentChar(s[i]) then s[i] else '_')
  }

  /**
   * `sanitize_symbol`: "_" for the empty name; otherwise every invalid character
   * becomes '_', and a leading digit gets a '_' in front. The result is
   * identifier-shaped, but a C keyword comes through unchanged.
   */
  function SanitizeSymbol(name: string): (r: string)
    ensures IsIdentifier(r)
    ensures |name| == 0 ==> r == "_"
  {
    if |name| == 0 then "_"
    else
      var s := Underscored(name);
      if IsLetter(s[0]) || s[0] == '_' then s else "_" + s
  }

  /**
   * The sanitised name is the input with invalid characters turned into '_',
   * shifted by one exactly when the input starts with a digit: valid
   * characters keep their place (after the shift) and their case.
   */
  lemma SanitizeSymbolShape(name: string)
    requires |name| > 0
    ensures var r := SanitizeSymbol(name); var shift := if IsDigit(name[0]) then 1 else 0;
      && |r| == |name| + shift
      && (shift == 1 ==> r[0] == '_')
      && forall i | 0 <= i < |name| :: r[i + shift] == if IsIdentChar(name[i]) then name[i] else '_'
  {
  }

  /** A name that is already an identifier comes back unchanged. */
  lemma SanitizeIdentifier(s: string)
    requires IsIdentifier(s)
    ensures SanitizeSymbol(s) == s
  {
    assert Underscored(s) == s;
  }

  /** A C keyword is identifier-shaped, so it comes back unchanged and would not compile as a symbol. */
  lemma KeywordPassesThrough()
    ensures SanitizeSymbol("int") == "int" && SanitizeSymbol("for") == "for"
  {
    SanitizeIdentifier("int");
    SanitizeIdentifier("for");
  }

  /** Sanitising twice is sanitising once. */
  lemma SanitizeIdempotent(name: string)
    ensures SanitizeSymbol(SanitizeSymbol(name)) == SanitizeSymbol(name)
  {
    SanitizeIdentifier(SanitizeSymbol(name));
  }

  /** ASCII upper case; every other character is left alone. */
  function ToUpper(c: char): (u: char)
    ensures IsLower(c) ==> IsUpper(u) && u as int == c as int - 32
    ensures !IsLower(c) ==> u == c
  {
    if IsLower(c) then (c as int - 32) as char else c
  }

  /** `upper_macro`: invalid characters become '_', then letters are upper-cased. */
  function UpperMacro(name: string): (r: string)
    ensures |r| == |name|
    ensures forall i | 0 <= i < |name| :: r[i] == ToUpper(if IsIdentChar(name[i]) then name[i] else '_')
  {
    var s := Underscored(name);
    seq(|s|, i requires 0 <= i < |s| => ToUpper(s[i]))
  }

  /** The macro of a sanitised name has its length, only [A-Z0-9_], and each letter upper-cased in place. */
  lemma UpperMacroOfIdentifier(s: string)
    requires IsIdentifier(s)
    ensures var m := UpperMacro(s);
      && |m| == |s|
      && (forall i | 0 <= i < |m| :: IsUpper(m[i]) || IsDigit(m[i]) || m[i] == '_')
      && (forall i | 0 <= i < |s| :: IsLower(s[i]) ==> m[i] as int == s[i] as int - 32)
      && (forall i | 0 <= i < |s| :: !IsLower(s[i]) ==> m[i] == s[i])
  {
  }

  // ---------------------------------------------------------------------
  // Hex listing
  // ---------------------------------------------------------------------

  function Min(a: int, b: int): int { if a <= b then a else b }

  /** Uppercase hexadecimal digit of a value in 0..15. */
  function HexDigit(d: int): (c: char)
    requires 0 <= d < 16
    ensures IsDigit(c) || 'A' <= c <= 'F'
    ensures HexValue(c) == Some(d)
  {
    if d < 10 then ('0' as int + d) as char else ('A' as int + d - 10) as char
  }

  /** Value of an uppercase hexadecimal digit, None for any other character. */
  function HexValue(c: char): Option<int>
  {
    if IsDigit(c) then Some(c as int - '0' as int)
    else if 'A' <= c <= 'F' then Some(c as int - 'A' as int + 10)
    else None
  }

  /** The value written by a four-character literal "0xHH", if it is one. */
  function ItemValue(s: string): Option<int>
  {
    if |s| != 4 || s[0] != '0' || s[1] != 'x' then None
    else match (HexValue(s[2]), HexValue(s[3]))
      case (Some(hi), Some(lo)) => Some(16 * hi + lo)
      case _ => None
  }

  /** One item of the listing: "0x" and two uppercase hex digits, which read back as the byte. */
  function HexItem(b: bv8): (r: string)
    ensures |r| == 4 && r[0] == '0' && r[1] == 'x'
    ensures forall i | 2 <= i < 4 :: IsDigit(r[i]) || 'A' <= r[i] <= 'F'
  {
    ['0', 'x', HexDigit(b as int / 16), HexDigit(b as int % 16)]
  }

  /** An item reads back as the byte it was written from. */
  lemma ItemRoundTrip(b: bv8)
    ensures ItemValue(HexItem(b)) == Some(b as int)
  {
    var v := b as int;
    DivModOf(v / 16, v % 16, 16);
    DigitsValue(v / 16, v % 16);
  }

  lemma DigitsValue(hi: int, lo: int)
    requires 0 <= hi < 16 && 0 <= lo < 16
    ensures ItemValue(['0', 'x', HexDigit(hi), HexDigit(lo)]) == Some(16 * hi + lo)
  {
  }

  function Items(data: seq<bv8>): (r: seq<string>)
    ensures |r| == |data|
    ensures forall i | 0 <= i < |data| :: r[i] == HexItem(data[i])
  {
    seq(|data|, i requires 0 <= i < |data| => HexItem(data[i]))
  }

  /** `sep.join(parts)`. */
  function JoinWith(sep: string, parts: seq<string>): string
  {
    if |parts| == 0 then ""
    else if |parts| == 1 then parts[0]
    else parts[0] + sep + JoinWith(sep, parts[1..])
  }

  /** The lines of the listing: four spaces and up to `k` comma-separated items each. */
  function Lines(items: seq<string>, k: int): seq<string>
    requires k > 0
    decreases |items|
  {
    if |items| == 0 then []
    else
      var m := Min(k, |items|);
      ["    " + JoinWith(", ", items[..m])] + Lines(items[m..], k)
  }

  /** The one failure: a step of zero, which Python's `range` refuses. */
  datatype FormatError = ZeroStep

  /**
   * `format_bytes_as_c_array`: the lines joined by ",\n". A negative step
   * makes the `range` empty and so the text empty.
   */
  function CArrayText(data: seq<bv8>, perLine: int): (r: Result<string, FormatError>)
    ensures r.Err? <==> perLine == 0
    ensures perLine != 0 && (perLine < 0 || |data| == 0) ==> r == Ok("")
  {
    if perLine == 0 then Err(ZeroStep)
    else if perLine < 0 then Ok("")
    else Ok(Listing(data, perLine))
  }

  /** The lines of the listing joined by ",\n". */
  function Listing(data: seq<bv8>, k: int): string
    requires k > 0
  {
    JoinWith(",\n", Lines(Items(data), k))
  }

  method FormatBytesAsCArray(data: seq<bv8>, perLine: int) returns (r: Result<string, FormatError>)
    ensures r == CArrayText(data, perLine)
  {
    if perLine == 0 {
      return Err(ZeroStep);
    }
    var items := Items(data);
    var lines: seq<string> := [];
    if perLine > 0 {
      var i := 0;
      while i < |items|
        invariant 0 <= i
        invariant lines + Lines(items[Min(i, |items|)..], perLine) == Lines(items, perLine)
        decreases |items| - i
      {
        var end := Min(i + perLine, |items|);
        var line := "    " + JoinWith(", ", items[i..end]);
        assert Min(i, |items|) == i;
        LinesStep(items, i, perLine, lines);
        lines := lines + [line];
        i := i + perLine;
        assert Min(i, |items|) == end;
      }
      assert items[Min(i, |items|)..] == [];
      assert Lines([], perLine) == [];
      assert lines == Lines(Items(data), perLine);
    }
    assert JoinWith(",\n", []) == "";
    r := Ok(JoinWith(",\n", lines));
  }

  /** One turn of the line loop: the line of items i .. i+k joins the lines before it. */
  lemma LinesStep(items: seq<string>, i: int, k: int, lines: seq<string>)
    requires k > 0 && 0 <= i < |items|
    requires lines + Lines(items[i..], k) == Lines(items, k)
    ensures var end := Min(i + k, |items|);
      (lines + ["    " + JoinWith(", ", items[i..end])]) + Lines(items[end..], k) == Lines(items, k)
  {
    var end := Min(i + k, |items|);
    var line := "    " + JoinWith(", ", items[i..end]);
    LinesFrom(items, i, k);
    assert (lines + [line]) + Lines(items[end..], k) == lines + ([line] + Lines(items[end..], k));
  }

  /** The lines from item i on: the line of items i .. i+k, then the lines after it. */
  lemma LinesFrom(items: seq<string>, i: int, k: int)
    requires k > 0 && 0 <= i < |items|
    ensures var end := Min(i + k, |items|);
      Lines(items[i..], k) == ["    " + JoinWith(", ", items[i..end])] + Lines(items[end..], k)
  {
    var end := Min(i + k, |items|);
    assert items[i..][..end - i] == items[i..end];
    assert items[i..][end - i..] == items[end..];
  }

  // ---------------------------------------------------------------------
  // Layout of the listing
  // ---------------------------------------------------------------------

  lemma NextBlock(j: int, k: int)
    ensures (j - 1) * k + k == j * k
  {
  }

  lemma CountStep(n: int, k: int)
    requires k > 0 && n > k
    ensures (n + k - 1) / k == (n - 1) / k + 1
  {
    var q, r := (n - 1) / k, (n - 1) % k;
    assert (q + 1) * k + r == n + k - 1;
    DivModOf(q + 1, r, k);
  }

  /** ceil(n / k), counted one line at a time. */
  function LineCount(n: int, k: int): nat
    requires k > 0
    decreases n
  {
    if n <= 0 then 0 else 1 + LineCount(n - k, k)
  }

  /** Counting a line at a time gives ceil(n / k). */
  lemma {:induction false} LineCountIsCeiling(n: int, k: int)
    requires k > 0 && n >= 0
    ensures LineCount(n, k) == (n + k - 1) / k
    decreases n
  {
    if n == 0 {
    } else if n <= k {
      assert LineCount(n - k, k) == 0;
      DivModOf(1, n - 1, k);
    } else {
      LineCountIsCeiling(n - k, k);
      CountStep(n, k);
    }
  }

  /** There are ceil(n/k) lines. */
  lemma LinesCount(items: seq<string>, k: int)
    requires k > 0
    ensures |Lines(items, k)| == (|items| + k - 1) / k
  {
    LinesCounted(items, k);
    LineCountIsCeiling(|items|, k);
  }

  lemma {:induction false} LinesCounted(items: seq<string>, k: int)
    requires k > 0
    ensures |Lines(items, k)| == LineCount(|items|, k)
    decreases |items|
  {
    if |items| == 0 {
    } else if |items| <= k {
      OneLine(items, k);
      assert LineCount(|items| - k, k) == 0;
    } else {
      LinesCounted(items[k..], k);
      LinesLength(items, k);
    }
  }

  lemma LinesLength(items: seq<string>, k: int)
    requires k > 0 && |items| > k
    ensures |Lines(items, k)| == 1 + |Lines(items[k..], k)|
  {
    assert Min(k, |items|) == k;
  }

  /** At most k items make one line. */
  lemma OneLine(items: seq<string>, k: int)
    requires 0 < |items| <= k
    ensures |Lines(items, k)| == 1
  {
    assert items[Min(k, |items|)..] == [];
    assert Lines([], k) == [];
  }

  /** Line j holds items j*k .. j*k+k, clipped at the end, after four spaces. */
  lemma {:induction false} LineAt(items: seq<string>, k: int, j: int)
    requires k > 0 && 0 <= j < |Lines(items, k)|
    ensures j * k < |items|
    ensures Lines(items, k)[j] == "    " + JoinWith(", ", items[j * k .. Min(j * k + k, |items|)])
    decreases j
  {
    var n := |items|;
    if j > 0 {
      LinesShift(items, k, j);
      var rest := items[k..];
      LineAt(rest, k, j - 1);
      var a := (j - 1) * k;
      NextBlock(j, k);
      var e := Min(a + k, n - k);
      SliceShift(items, k, a, e, j * k, Min(j * k + k, n));
    }
  }

  /** Line j > 0 of the listing is line j - 1 of the items after the first k. */
  lemma LinesShift(items: seq<string>, k: int, j: int)
    requires k > 0 && 0 < j < |Lines(items, k)|
    ensures |items| > k && j - 1 < |Lines(items[k..], k)|
    ensures Lines(items, k)[j] == Lines(items[k..], k)[j - 1]
  {
    if |items| <= k {
      OneLine(items, k);
    }
    assert Min(k, |items|) == k;
  }

  /** A slice of the items after the first k is a slice of the items, k further on. */
  lemma SliceShift(items: seq<string>, k: int, a: int, e: int, lo: int, hi: int)
    requires 0 <= k && 0 <= a <= e <= |items| - k && lo == a + k && hi == e + k
    ensures items[k..][a..e] == items[lo..hi]
  {
  }

  /**
   * ceil(n/k) lines; line j starts with four spaces and holds items
   * j*k .. j*k+k (clipped at the end), so every line but the last holds k.
   */
  lemma LinesLayout(items: seq<string>, k: int)
    requires k > 0
    ensures var ls := Lines(items, k);
      && |ls| == (|items| + k - 1) / k
      && (forall j | 0 <= j < |ls| ::
            j * k < |items| && ls[j] == "    " + JoinWith(", ", items[j * k .. Min(j * k + k, |items|)]))
      && (forall j | 0 <= j < |ls| - 1 :: j * k + k <= |items|)
  {
    var ls := Lines(items, k);
    LinesCount(items, k);
    forall j | 0 <= j < |ls|
      ensures j * k < |items| && ls[j] == "    " + JoinWith(", ", items[j * k .. Min(j * k + k, |items|)])
    {
      LineAt(items, k, j);
    }
    forall j | 0 <= j < |ls| - 1
      ensures j * k + k <= |items|
    {
      LineAt(items, k, j + 1);
      assert (j + 1) * k == j * k + k;
    }
  }

  /** The listing is empty exactly when there are no bytes. */
  lemma EmptyListing(data: seq<bv8>, perLine: int)
    requires perLine > 0
    ensures CArrayText(data, perLine) == Ok("") <==> |data| == 0
  {
    if |data| > 0 {
      ParseListing(data, perLine);
    }
  }

  // ---------------------------------------------------------------------
  // Reading the listing back
  // ---------------------------------------------------------------------

  /** The byte values of a buffer, as the listing spells them. */
  function Values(data: seq<bv8>): (r: seq<int>)
    ensures |r| == |data| && forall i | 0 <= i < |data| :: r[i] == data[i] as int
  {
    seq(|data|, i requires 0 <= i < |data| => data[i] as int)
  }

  function Glue(head: seq<int>, tail: Option<seq<int>>): Option<seq<int>>
  {
    match tail
    case None => None
    case Some(vs) => Some(head + vs)
  }

  /** Items separated by ", " within a line or ",\n    " across lines. */
  function ParseItems(s: string): Option<seq<int>>
    decreases |s|
  {
    if |s| < 4 then None
    else match ItemValue(s[..4])
      case None => None
      case Some(v) => Glue([v], ParseRest(s[4..]))
  }

  function ParseRest(s: string): Option<seq<int>>
    decreases |s|
  {
    if |s| == 0 then Some([])
    else if |s| >= 2 && s[..2] == ", " then ParseItems(s[2..])
    else if |s| >= 6 && s[..6] == ",\n    " then ParseItems(s[6..])
    else None
  }

  /** Reads a listing: empty, or four spaces followed by the items. */
  function ParseCArray(text: string): Option<seq<int>>
  {
    if |text| == 0 then Some([])
    else if |text| >= 4 && text[..4] == "    " then ParseItems(text[4..])
    else None
  }

  /** One line's items, followed by nothing or by a line break, read back item by item. */
  lemma {:induction false} ParseLine(c: seq<bv8>, t: string)
    requires |c| > 0
    requires |t| == 0 || (|t| >= 2 && t[..2] == ",\n")
    ensures ParseItems(JoinWith(", ", Items(c)) + t) == Glue(Values(c), ParseRest(t))
    decreases |c|
  {
    if |c| == 1 {
      JoinSingle(c, t);
      ParseItemThen(c[0], t);
    } else {
      var j' := JoinWith(", ", Items(c[1..]));
      JoinCons(c, t);
      ParseItemThen(c[0], ", " + (j' + t));
      AfterComma(j' + t);
      ParseLine(c[1..], t);
      GlueTwice(c[0] as int, Values(c[1..]), ParseRest(t));
    }
  }

  /** An item followed by the rest of the text reads as its byte, then the rest. */
  lemma ParseItemThen(v: bv8, rest: string)
    ensures ParseItems(HexItem(v) + rest) == Glue([v as int], ParseRest(rest))
  {
    var s := HexItem(v) + rest;
    assert s[..4] == HexItem(v) && s[4..] == rest;
    ItemRoundTrip(v);
  }

  /** After ", " the next item follows. */
  lemma AfterComma(s: string)
    ensures ParseRest(", " + s) == ParseItems(s)
  {
    var t := ", " + s;
    assert t[..2] == ", " && t[2..] == s;
  }

  /** After ",\n" and the four-space indent the next line's first item follows. */
  lemma AfterLineBreak(s: string)
    ensures ParseRest(",\n    " + s) == ParseItems(s)
  {
    var t := ",\n    " + s;
    assert t[..2] != ", " by { assert t[1] == '\n'; }
    assert t[..6] == ",\n    " && t[6..] == s;
  }

  /** Joining two or more items: the first, ", ", then the join of the others. */
  lemma JoinCons(c: seq<bv8>, t: string)
    requires |c| > 1
    ensures JoinWith(", ", Items(c)) + t == HexItem(c[0]) + (", " + (JoinWith(", ", Items(c[1..])) + t))
    ensures Values(c) == [c[0] as int] + Values(c[1..])
  {
    assert Items(c)[1..] == Items(c[1..]);
  }

  /** A single item joins to itself. */
  lemma JoinSingle(c: seq<bv8>, t: string)
    requires |c| == 1
    ensures JoinWith(", ", Items(c)) + t == HexItem(c[0]) + t && Values(c) == [c[0] as int]
  {
  }

  lemma GlueTwice(v: int, c: seq<int>, x: Option<seq<int>>)
    ensures Glue([v], Glue(c, x)) == Glue([v] + c, x)
  {
    if x.Some? {
      assert [v] + (c + x.value) == ([v] + c) + x.value;
    }
  }

  /** The lines of a listing: the first chunk, then the lines of what follows it. */
  lemma LinesOfItems(data: seq<bv8>, k: int)
    requires k > 0 && |data| > 0
    ensures var m := Min(k, |data|);
      Lines(Items(data), k) == ["    " + JoinWith(", ", Items(data[..m]))] + Lines(Items(data[m..]), k)
  {
    var m := Min(k, |data|);
    assert Items(data)[..m] == Items(data[..m]);
    assert Items(data)[m..] == Items(data[m..]);
  }

  /** The whole listing of a non-empty byte sequence starts with four spaces and reads back as the bytes. */
  lemma {:induction false} ParseListing(data: seq<bv8>, k: int)
    requires k > 0 && |data| > 0
    ensures ReadsBack(Listing(data, k), Values(data))
    decreases |data|
  {
    if |data| <= k {
      ListingOne(data, k);
    } else {
      ParseListing(data[k..], k);
      ListingStep(data, k);
    }
  }

  /** Four spaces, then items that read back as `data`. */
  predicate ReadsBack(text: string, values: seq<int>) {
    |text| >= 4 && text[..4] == "    " && ParseItems(text[4..]) == Some(values)
  }

  lemma ListingOne(data: seq<bv8>, k: int)
    requires k > 0 && 0 < |data| <= k
    ensures ReadsBack(Listing(data, k), Values(data))
  {
    ListingOfOneLine(data, k);
    ParseLineAlone(data, JoinWith(", ", Items(data)));
  }

  lemma ListingStep(data: seq<bv8>, k: int)
    requires k > 0 && |data| > k
    requires ReadsBack(Listing(data[k..], k), Values(data[k..]))
    ensures ReadsBack(Listing(data, k), Values(data))
  {
    ListingSplit(data, k);
    TakeDrop(data, k);
    ParseLineThenMore(data[..k], JoinWith(", ", Items(data[..k])), Listing(data[k..], k), Values(data[k..]));
  }

  lemma TakeDrop(data: seq<bv8>, k: int)
    requires 0 <= k <= |data|
    ensures Values(data[..k]) + Values(data[k..]) == Values(data)
  {
  }

  lemma ListingOfOneLine(data: seq<bv8>, k: int)
    requires k > 0 && 0 < |data| <= k
    ensures Listing(data, k) == "    " + JoinWith(", ", Items(data))
  {
    LinesOfItems(data, k);
    assert data[Min(k, |data|)..] == [];
    assert data[..Min(k, |data|)] == data;
    assert Lines(Items([]), k) == [];
  }

  lemma ListingSplit(data: seq<bv8>, k: int)
    requires k > 0 && |data| > k
    ensures Listing(data, k) == "    " + JoinWith(", ", Items(data[..k])) + (",\n" + Listing(data[k..], k))
  {
    LinesOfItems(data, k);
    assert Lines(Items(data[k..]), k) != [];
  }

  lemma ParseLineAlone(data: seq<bv8>, first: string)
    requires |data| > 0 && first == JoinWith(", ", Items(data))
    ensures ReadsBack("    " + first, Values(data))
  {
    Indented(first, []);
    assert first + [] == first;
    ParseLine(data, []);
    assert ParseRest([]) == Some([]);
    assert Values(data) + [] == Values(data);
  }

  lemma ParseLineThenMore(c: seq<bv8>, first: string, more: string, tail: seq<int>)
    requires |c| > 0 && first == JoinWith(", ", Items(c))
    requires ReadsBack(more, tail)
    ensures ReadsBack("    " + first + (",\n" + more), Values(c) + tail)
  {
    var t := ",\n" + more;
    Indented(first, t);
    LineBreakThenIndent(more);
    ParseLine(c, t);
    AfterLineBreak(more[4..]);
  }

  /** Four spaces, then the first line's items, then t. */
  lemma Indented(first: string, t: string)
    ensures var text := "    " + first + t; text[..4] == "    " && text[4..] == first + t
  {
  }

  /** A line break followed by an indented line. */
  lemma LineBreakThenIndent(more: string)
    requires |more| >= 4 && more[..4] == "    "
    ensures var t := ",\n" + more; |t| >= 2 && t[..2] == ",\n" && t == ",\n    " + more[4..]
  {
    assert more == "    " + more[4..];
  }

  /** Reading the listing back gives the values of the bytes that were formatted, in order. */
  lemma CArrayRoundTrip(data: seq<bv8>, perLine: int)
    requires perLine > 0
    ensures CArrayText(data, perLine).Ok?
    ensures ParseCArray(CArrayText(data, perLine).value) == Some(Values(data))
  {
    if |data| > 0 {
      ParseListing(data, perLine);
    }
  }
}
