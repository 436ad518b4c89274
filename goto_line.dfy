/**
 * GotoLineEditorController.selectedLineNumber: the line number typed into
 * the "go to line" box, or nothing. Null, blank or unparsable text, and
 * numbers that are not positive, all give nothing.
 *
 * The text is trimmed as Java's String.trim does (characters up to U+0020
 * are blank) and parsed as Integer.parseInt does for ASCII digits: an
 * optional sign, at least one digit, and a value that fits 32 bits.
 */
module GotoLine {
  import opened Wrappers

  const MinInt: int := -0x8000_0000
  const MaxInt: int := 0x7fff_ffff

  /** The characters String.trim removes. */
  predicate IsBlank(c: char)
  {
    c <= ' '
  }

  predicate AllBlank(s: string)
  {
    forall i :: 0 <= i < |s| ==> IsBlank(s[i])
  }

  lemma BlankCons(c: char, x: string)
    requires IsBlank(c) && AllBlank(x)
    ensures AllBlank([c] + x) && AllBlank(x + [c])
  {
    forall i | 0 <= i < |x| ensures ([c] + x)[i + 1] == x[i] && (x + [c])[i] == x[i] {
    }
  }

  function TrimStart(s: string): (t: string)
    ensures |t| <= |s| && t == s[|s| - |t|..]
    ensures t == [] || !IsBlank(t[0])
    ensures AllBlank(s[..|s| - |t|])
  {
    if s != [] && IsBlank(s[0]) then
      var t := TrimStart(s[1..]);
      assert s[..|s| - |t|] == [s[0]] + s[1..][..|s| - 1 - |t|];
      BlankCons(s[0], s[1..][..|s| - 1 - |t|]);
      t
    else s
  }

  function TrimEnd(s: string): (t: string)
    ensures |t| <= |s| && t == s[..|t|]
    ensures t == [] || !IsBlank(t[|t| - 1])
    ensures AllBlank(s[|t|..])
  {
    if s != [] && IsBlank(s[|s| - 1]) then
      var t := TrimEnd(s[..|s| - 1]);
      assert s[|t|..] == s[..|s| - 1][|t|..] + [s[|s| - 1]];
      BlankCons(s[|s| - 1], s[..|s| - 1][|t|..]);
      t
    else s
  }

  /** String.trim: the text without its leading and trailing blanks. */
  function Trim(s: string): (t: string)
    ensures t == [] || (!IsBlank(t[0]) && !IsBlank(t[|t| - 1]))
    ensures exists a, b {:trigger AllBlank(a), AllBlank(b)} :: s == a + t + b && AllBlank(a) && AllBlank(b)
  {
    var u := TrimStart(s);
    var t := TrimEnd(u);
    SplitAround(s, u, t);
    t
  }

  /** A suffix u of s, and a prefix t of u, leave s as blanks-before + t + rest. */
  lemma SplitAround(s: string, u: string, t: string)
    requires |u| <= |s| && u == s[|s| - |u|..] && |t| <= |u| && t == u[..|t|]
    ensures s == s[..|s| - |u|] + t + u[|t|..]
  {
    assert s == s[..|s| - |u|] + u;
    assert u == t + u[|t|..];
  }

  lemma {:induction false} TrimStartPadded(a: string, x: string)
    requires AllBlank(a)
    ensures TrimStart(a + x) == TrimStart(x)
    decreases |a|
  {
    if a != [] {
      assert (a + x)[1..] == a[1..] + x;
      TrimStartPadded(a[1..], x);
    } else {
      assert a + x == x;
    }
  }

  lemma {:induction false} TrimEndPadded(x: string, b: string)
    requires AllBlank(b)
    ensures TrimEnd(x + b) == TrimEnd(x)
    decreases |b|
  {
    if b != [] {
      assert (x + b)[..|x + b| - 1] == x + b[..|b| - 1];
      TrimEndPadded(x, b[..|b| - 1]);
    } else {
      assert x + b == x;
    }
  }

  lemma AllBlankTail(t: string)
    requires t != [] && IsBlank(t[0])
    ensures AllBlank(t) <==> AllBlank(t[1..])
  {
    if AllBlank(t[1..]) {
      forall i | 0 < i < |t| ensures IsBlank(t[i]) {
        assert t[i] == t[1..][i - 1];
      }
    }
  }

  /** Trimming the front of t + b reaches into b only when t is all blank. */
  lemma {:induction false} TrimStartAppend(t: string, b: string)
    ensures TrimStart(t + b) == if AllBlank(t) then TrimStart(b) else TrimStart(t) + b
    decreases |t|
  {
    if t == [] {
      assert t + b == b;
    } else if IsBlank(t[0]) {
      assert (t + b)[1..] == t[1..] + b;
      TrimStartAppend(t[1..], b);
      AllBlankTail(t);
    } else {
      assert (t + b)[0] == t[0];
    }
  }

  /** Blanks around the text do not change what trim gives. */
  lemma TrimPadded(a: string, t: string, b: string)
    requires AllBlank(a) && AllBlank(b)
    ensures Trim(a + t + b) == Trim(t)
  {
    assert a + t + b == a + (t + b);
    TrimStartPadded(a, t + b);
    TrimStartAppend(t, b);
    if AllBlank(t) {
      assert TrimStart(b) == [] && TrimStart(t) == [];
    } else {
      TrimEndPadded(TrimStart(t), b);
    }
  }

  /** Text without blanks at either end is left as it is. */
  lemma TrimUnpadded(s: string)
    requires s == [] || (!IsBlank(s[0]) && !IsBlank(s[|s| - 1]))
    ensures Trim(s) == s
  {
  }

  /** Strings.isNullOrWhiteSpace, read as: null, or nothing left after trimming. */
  predicate IsNullOrWhiteSpace(text: Option<string>)
  {
    text == None || Trim(text.value) == []
  }

  predicate IsDigit(c: char)
  {
    '0' <= c <= '9'
  }

  predicate AllDigits(s: string)
  {
    forall i :: 0 <= i < |s| ==> IsDigit(s[i])
  }

  /** The value of a string of decimal digits, most significant first. */
  function DigitsValue(s: string): nat
    requires AllDigits(s)
  {
    if s == [] then 0
    else DigitsValue(s[..|s| - 1]) * 10 + (s[|s| - 1] as int - '0' as int)
  }

  /**
   * Integer.parseInt on ASCII digits: an optional '+' or '-', then at least
   * one digit; the value must lie in the 32-bit range. Anything else is the
   * NumberFormatException, here None.
   */
  function ParseInt(s: string): (r: Option<int>)
    ensures r.Some? ==> MinInt <= r.value <= MaxInt
    ensures r.Some? ==> s != [] && (IsDigit(s[0]) || s[0] == '+' || s[0] == '-')
  {
    if s == [] then None
    else if s[0] == '-' || s[0] == '+' then
      if |s| == 1 || !AllDigits(s[1..]) then None
      else
        var magnitude: int := DigitsValue(s[1..]);
        var v := if s[0] == '-' then -magnitude else magnitude;
        if MinInt <= v <= MaxInt then Some(v) else None
    else if !AllDigits(s) then None
    else
      var v := DigitsValue(s);
      if v <= MaxInt then Some(v) else None
  }

  /** The decimal digits of n without leading zeros (Integer.toString for n >= 0). */
  function NatToString(n: nat): (s: string)
    ensures s != [] && AllDigits(s)
    ensures s[0] != '0' || n == 0
  {
    if n < 10 then ['0' + n as char]
    else NatToString(n / 10) + ['0' + (n % 10) as char]
  }

  /** Integer.toString: the decimal form of n, with '-' in front when negative. */
  function IntToString(n: int): string
  {
    if n < 0 then "-" + NatToString(-n) else NatToString(n)
  }

  lemma {:induction false} DigitsValueOfNatToString(n: nat)
    ensures DigitsValue(NatToString(n)) == n
    decreases n
  {
    var s := NatToString(n);
    if n >= 10 {
      DigitsValueOfNatToString(n / 10);
      assert s[..|s| - 1] == NatToString(n / 10);
    }
  }

  /** parseInt reads back what toString writes, exactly for the 32-bit values. */
  lemma ParseIntToString(n: int)
    ensures ParseInt(IntToString(n)) == if MinInt <= n <= MaxInt then Some(n) else None
  {
    var s := IntToString(n);
    if n < 0 {
      DigitsValueOfNatToString(-n);
      assert s[1..] == NatToString(-n);
    } else {
      DigitsValueOfNatToString(n);
    }
  }

  /**
   * selectedLineNumber: nothing for null or blank text; otherwise the
   * trimmed text parsed as an int, kept only when positive.
   */
  function SelectedLineNumber(text: Option<string>): (r: Option<int>)
    ensures r.Some? ==> 0 < r.value <= MaxInt
    ensures text == None || AllBlank(text.value) ==> r == None
    ensures r.Some? ==> ParseInt(Trim(text.value)) == r
    ensures text.Some? && ParseInt(Trim(text.value)).Some? && ParseInt(Trim(text.value)).value > 0 ==>
      r == ParseInt(Trim(text.value))
  {
    if IsNullOrWhiteSpace(text) then None
    else
      match ParseInt(Trim(text.value))
      case None => None
      case Some(v) => if v > 0 then Some(v) else None
  }

  /** toString never writes blanks at either end. */
  lemma IntToStringUnpadded(n: int)
    ensures Trim(IntToString(n)) == IntToString(n) != []
  {
    var m: nat := if n < 0 then -n else n;
    var d := NatToString(m);
    var s := IntToString(n);
    assert s[|s| - 1] == d[|d| - 1];
    assert IsDigit(d[|d| - 1]) && IsDigit(d[0]);
    TrimUnpadded(s);
  }

  /** Typing a number gives it back exactly when it is a positive int. */
  lemma SelectedLineNumberOfInt(n: int)
    ensures SelectedLineNumber(Some(IntToString(n))) == if 0 < n <= MaxInt then Some(n) else None
  {
    IntToStringUnpadded(n);
    ParseIntToString(n);
  }

  /** Blanks typed around the text do not change the result. */
  lemma SelectedLineNumberPadded(a: string, t: string, b: string)
    requires AllBlank(a) && AllBlank(b)
    ensures SelectedLineNumber(Some(a + t + b)) == SelectedLineNumber(Some(t))
  {
    TrimPadded(a, t, b);
  }

  /** parseInt accepts a leading plus sign: "+7" selects line 7. */
  lemma PlusSignExample()
    ensures SelectedLineNumber(Some("+7")) == Some(7)
  {
    TrimUnpadded("+7");
    assert "+7"[1..] == "7";
    assert "7"[..0] == "";
    assert DigitsValue("7") == 7;
  }

  /** Zero parses but is not a line number. */
  lemma ZeroExample()
    ensures ParseInt("0") == Some(0)
    ensures SelectedLineNumber(Some("0")) == None
  {
    assert NatToString(0) == "0";
    SelectedLineNumberOfInt(0);
  }
}
