/**
 * The text primitives the command line is parsed with: whitespace as
 * Python's `str.isspace()` sees it, `str.strip()`, `str.split()` with no
 * separator, `str.upper()` restricted to the characters that can matter,
 * and `int()` applied to one token.
 */
module Text {
  import opened Wrappers

  /** The characters `str.isspace()` accepts; `split()` and `strip()` cut on exactly these. */
  predicate IsSpace(c: char)
  {
    || c == ' '
    || ('\t' <= c <= '\r')
    || ('\U{1C}' <= c <= '\U{1F}')
    || c == '\U{85}' || c == '\U{A0}' || c == '\U{1680}'
    || ('\U{2000}' <= c <= '\U{200A}')
    || c == '\U{2028}' || c == '\U{2029}' || c == '\U{202F}' || c == '\U{205F}' || c == '\U{3000}'
  }

  predicate AllSpace(s: string)
  {
    forall i :: 0 <= i < |s| ==> IsSpace(s[i])
  }

  predicate NoSpace(s: string)
  {
    forall i :: 0 <= i < |s| ==> !IsSpace(s[i])
  }

  /** A token `split()` can produce: non-empty, no whitespace inside. */
  predicate IsWord(s: string)
  {
    |s| > 0 && NoSpace(s)
  }

  // ---------------------------------------------------------------- strip

  /** Drops the longest all-whitespace prefix. */
  function StripLeft(s: string): (r: string)
    ensures |r| <= |s| && r == s[|s| - |r|..]
    ensures AllSpace(s[..|s| - |r|])
    ensures r == [] || !IsSpace(r[0])
  {
    if s != [] && IsSpace(s[0]) then
      var r := StripLeft(s[1..]);
      assert s[..|s| - |r|] == [s[0]] + s[1..][..|s| - 1 - |r|];
      r
    else s
  }

  /** Drops the longest all-whitespace suffix. */
  function StripRight(s: string): (r: string)
    ensures |r| <= |s| && r == s[..|r|]
    ensures AllSpace(s[|r|..])
    ensures r == [] || !IsSpace(r[|r| - 1])
  {
    if s != [] && IsSpace(s[|s| - 1]) then
      var r := StripRight(s[..|s| - 1]);
      assert s[|r|..] == s[..|s| - 1][|r|..] + [s[|s| - 1]];
      r
    else s
  }

  /** `str.strip()` with no argument. */
  function Strip(s: string): string
  {
    StripRight(StripLeft(s))
  }

  // ---------------------------------------------------------------- split

  /** Length of the run of non-whitespace characters that starts `s`. */
  function WordLen(s: string): (n: nat)
    ensures n <= |s| && NoSpace(s[..n])
    ensures n == |s| || IsSpace(s[n])
  {
    if s == [] || IsSpace(s[0]) then 0
    else
      var n := 1 + WordLen(s[1..]);
      assert s[..n] == [s[0]] + s[1..][..n - 1];
      n
  }

  /** `str.split()` with no separator: the maximal runs of non-whitespace, in order. */
  function Split(s: string): (ws: seq<string>)
    ensures forall i :: 0 <= i < |ws| ==> IsWord(ws[i])
    ensures ws == [] <==> AllSpace(s)
    decreases |s|
  {
    if s == [] then []
    else if IsSpace(s[0]) then
      var ws := Split(s[1..]);
      assert AllSpace(s) <==> AllSpace(s[1..]) by {
        assert forall i :: 0 < i < |s| ==> s[i] == s[1..][i - 1];
      }
      ws
    else
      var n := WordLen(s);
      [s[..n]] + Split(s[n..])
  }

  /**
   * A line made of `ws`, with `gaps[i]` written before `ws[i]` and the last
   * gap after the last word.
   */
  function Interleave(ws: seq<string>, gaps: seq<string>): string
    requires |gaps| == |ws| + 1
  {
    if ws == [] then gaps[0] else gaps[0] + ws[0] + Interleave(ws[1..], gaps[1..])
  }

  /** Gaps that `split()` treats as separators: whitespace only, non-empty between two words. */
  predicate Separators(gaps: seq<string>)
  {
    && |gaps| > 0
    && (forall i :: 0 <= i < |gaps| ==> AllSpace(gaps[i]))
    && (forall i :: 0 < i < |gaps| - 1 ==> gaps[i] != [])
  }

  lemma {:induction false} WordLenOfWord(w: string, s: string)
    requires NoSpace(w)
    requires s == [] || IsSpace(s[0])
    ensures WordLen(w + s) == |w|
  {
    if w != [] {
      assert (w + s)[1..] == w[1..] + s;
      WordLenOfWord(w[1..], s);
    }
  }

  lemma {:induction false} SplitAfterSpace(g: string, s: string)
    requires AllSpace(g)
    ensures Split(g + s) == Split(s)
  {
    if g != [] {
      assert (g + s)[0] == g[0] && IsSpace(g[0]);
      assert (g + s)[1..] == g[1..] + s;
      assert Split(g + s) == Split((g + s)[1..]);
      SplitAfterSpace(g[1..], s);
    } else {
      assert g + s == s;
    }
  }

  lemma SplitAfterWord(w: string, s: string)
    requires IsWord(w)
    requires s == [] || IsSpace(s[0])
    ensures Split(w + s) == [w] + Split(s)
  {
    WordLenOfWord(w, s);
    assert (w + s)[..|w|] == w;
    assert (w + s)[|w|..] == s;
  }

  /** When a separator precedes the first word, an interleaved line starts with whitespace or is empty. */
  lemma InterleaveStart(ws: seq<string>, gaps: seq<string>)
    requires |gaps| == |ws| + 1 && AllSpace(gaps[0])
    requires ws != [] ==> gaps[0] != []
    ensures var s := Interleave(ws, gaps); s == [] || IsSpace(s[0])
  {
    if ws != [] {
      assert Interleave(ws, gaps)[0] == gaps[0][0];
    }
  }

  /** Any line built from words and whitespace separators splits back into exactly those words. */
  lemma {:induction false} SplitInterleave(ws: seq<string>, gaps: seq<string>)
    requires forall i :: 0 <= i < |ws| ==> IsWord(ws[i])
    requires |gaps| == |ws| + 1 && Separators(gaps)
    ensures Split(Interleave(ws, gaps)) == ws
  {
    if ws != [] {
      var rest := Interleave(ws[1..], gaps[1..]);
      assert Separators(gaps[1..]) by {
        assert forall i :: 0 <= i < |gaps| - 1 ==> gaps[1..][i] == gaps[i + 1];
      }
      SplitInterleave(ws[1..], gaps[1..]);
      InterleaveStart(ws[1..], gaps[1..]);
      SplitAfterWord(ws[0], rest);
      assert Interleave(ws, gaps) == gaps[0] + (ws[0] + rest);
      SplitAfterSpace(gaps[0], ws[0] + rest);
    }
  }

  lemma {:induction false} SplitBeforeSpace(s: string, g: string)
    requires AllSpace(g)
    ensures Split(s + g) == Split(s)
    decreases |s|
  {
    if s == [] {
      assert s + g == g;
    } else if IsSpace(s[0]) {
      assert (s + g)[1..] == s[1..] + g;
      SplitBeforeSpace(s[1..], g);
    } else {
      var n := WordLen(s);
      assert s == s[..n] + s[n..];
      assert g == [] || IsSpace(g[0]);
      if n == |s| {
        WordLenOfWord(s, g);
        assert (s + g)[..n] == s[..n];
        assert (s + g)[n..] == g;
        assert Split(g) == [] && Split(s[n..]) == [];
      } else {
        WordLenOfWord(s[..n], s[n..] + g);
        assert s + g == s[..n] + (s[n..] + g);
        assert (s + g)[..n] == s[..n];
        assert (s + g)[n..] == s[n..] + g;
        SplitBeforeSpace(s[n..], g);
      }
    }
  }

  lemma SplitOfStripLeft(s: string)
    ensures Split(StripLeft(s)) == Split(s)
  {
    var l := StripLeft(s);
    var lead := s[..|s| - |l|];
    assert s == lead + l;
    SplitAfterSpace(lead, l);
  }

  lemma SplitOfStripRight(s: string)
    ensures Split(StripRight(s)) == Split(s)
  {
    var r := StripRight(s);
    var trail := s[|r|..];
    assert s == r + trail;
    SplitBeforeSpace(r, trail);
  }

  /** `line.strip().split()` is `line.split()`: stripping first changes nothing. */
  lemma SplitOfStrip(s: string)
    ensures Split(Strip(s)) == Split(s)
  {
    SplitOfStripLeft(s);
    SplitOfStripRight(StripLeft(s));
  }

  // ---------------------------------------------------------------- upper

  /** `str.upper()` on one character, for ASCII letters and the long s (U+017F), which upper-cases to 'S'. */
  function UpperChar(c: char): char
  {
    if 'a' <= c <= 'z' then (c as int - 32) as char
    else if c == '\U{17F}' then 'S'
    else c
  }

  /** `str.upper()`, character by character. */
  function Upper(s: string): string
  {
    seq(|s|, i requires 0 <= i < |s| => UpperChar(s[i]))
  }

  // ---------------------------------------------------------------- int()

  predicate IsDigit(c: char)
  {
    '0' <= c <= '9'
  }

  /**
   * The unsigned part `int()` accepts: decimal digits, an underscore allowed
   * only between two digits.
   */
  predicate DigitGroups(s: string)
  {
    && |s| > 0
    && DigitsOrUnderscores(s)
    && forall i :: 0 <= i < |s| && s[i] == '_' ==>
         0 < i < |s| - 1 && IsDigit(s[i - 1]) && IsDigit(s[i + 1])
  }

  predicate DigitsOrUnderscores(s: string)
  {
    forall i :: 0 <= i < |s| ==> IsDigit(s[i]) || s[i] == '_'
  }

  /** The number the digits of `s` spell, underscores skipped. */
  function DigitsValue(s: string): (n: nat)
    requires DigitsOrUnderscores(s)
  {
    if s == [] then 0
    else
      var last := s[|s| - 1];
      assert IsDigit(last) || last == '_';
      var high := DigitsValue(s[..|s| - 1]);
      if last == '_' then high else 10 * high + (last as int - '0' as int)
  }

  /** `int(token)`: `None` where Python raises `ValueError`. */
  function ParseInt(s: string): (r: Option<int>)
    ensures r.Some? ==> |s| > 0 && (IsDigit(s[0]) || s[0] == '+' || s[0] == '-')
    ensures r.Some? && r.value < 0 ==> |s| > 0 && s[0] == '-'
  {
    if |s| > 0 && (s[0] == '+' || s[0] == '-') then
      var body := s[1..];
      if DigitGroups(body) then
        var v: int := DigitsValue(body);
        Some(if s[0] == '-' then -v else v)
      else None
    else if DigitGroups(s) then
      assert s[0] != '_';
      Some(DigitsValue(s))
    else None
  }

  function DigitChar(d: nat): (c: char)
    requires d < 10
    ensures IsDigit(c)
  {
    ('0' as int + d) as char
  }

  /** Shortest decimal spelling of a natural number. */
  function Digits(n: nat): (s: string)
    ensures |s| > 0 && forall i :: 0 <= i < |s| ==> IsDigit(s[i])
  {
    if n < 10 then [DigitChar(n)] else Digits(n / 10) + [DigitChar(n % 10)]
  }

  /** `str(n)`: the spelling Python prints for an integer. */
  function Decimal(n: int): string
  {
    if n < 0 then "-" + Digits(-n) else Digits(n)
  }

  lemma {:induction false} DigitsValueOfDigits(n: nat)
    ensures DigitsValue(Digits(n)) == n
  {
    if n >= 10 {
      var s := Digits(n);
      assert s[..|s| - 1] == Digits(n / 10);
      DigitsValueOfDigits(n / 10);
    }
  }

  /** `int(str(n)) == n` for every integer. */
  lemma ParseDecimal(n: int)
    ensures ParseInt(Decimal(n)) == Some(n)
  {
    var m: nat := if n < 0 then -n else n;
    var ds := Digits(m);
    assert DigitGroups(ds);
    DigitsValueOfDigits(m);
    if n < 0 {
      var s := Decimal(n);
      assert s == "-" + ds && s[0] == '-' && s[1..] == ds;
    } else {
      assert Decimal(n) == ds && ds[0] != '+' && ds[0] != '-';
    }
  }

  /** How `int()` treats the shapes a TTL token can take: signs, underscores between digits, and nothing else. */
  lemma ParseIntCases()
    ensures ParseInt("+7") == Some(7)
    ensures ParseInt("007") == Some(7)
    ensures ParseInt("1_000") == Some(1000)
    ensures ParseInt("1__0") == None
    ensures ParseInt("_1") == None
    ensures ParseInt("1_") == None
    ensures ParseInt("-") == None
    ensures ParseInt("") == None
  {
    assert "+7"[1..] == "7";
    assert "1_000"[..4] == "1_00" && "1_00"[..3] == "1_0" && "1_0"[..2] == "1_" && "1_"[..1] == "1";
    assert "007"[..2] == "00" && "00"[..1] == "0";
    assert !DigitGroups("1__0") by { assert "1__0"[1] == '_' && !IsDigit("1__0"[2]); }
  }
}
