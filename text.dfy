/**
 * The C string routines the chain builder and the output stages rely on:
 * strtok / strtok_r tokenisation, and the sscanf conversions "%s" and "%d"
 * after a literal prefix.
 */
module Text {
  import opened Wrappers

  /**
   * Length of the leading run of s that contains no `sep`.
   */
  function RunLength(s: string, sep: char): (n: nat)
    ensures n <= |s|
    ensures forall i :: 0 <= i < n ==> s[i] != sep
    ensures n < |s| ==> s[n] == sep
  {
    if s == [] || s[0] == sep then 0 else 1 + RunLength(s[1..], sep)
  }

  /**
   * The tokens successive strtok(…, sep) calls return: skip separators,
   * return the maximal run up to the next separator, continue after it.
   */
  function Tokens(s: string, sep: char): (ts: seq<string>)
    ensures forall t :: t in ts ==> |t| > 0 && sep !in t
    decreases |s|
  {
    if s == [] then []
    else if s[0] == sep then Tokens(s[1..], sep)
    else
      var n := RunLength(s, sep);
      [s[..n]] + Tokens(s[n..], sep)
  }

  /**
   * Reference definition: every field between separators, empty ones included
   * ("a::b" has the three fields "a", "" and "b").
   */
  function Fields(s: string, sep: char): (fs: seq<string>)
    ensures |fs| >= 1
  {
    if s == [] then [""]
    else
      var rest := Fields(s[1..], sep);
      if s[0] == sep then [""] + rest else [[s[0]] + rest[0]] + rest[1..]
  }

  function NonEmpty(fs: seq<string>): seq<string>
  {
    if fs == [] then []
    else if fs[0] == "" then NonEmpty(fs[1..])
    else [fs[0]] + NonEmpty(fs[1..])
  }

  lemma {:induction false} NonEmptyAppend(a: seq<string>, b: seq<string>)
    ensures NonEmpty(a + b) == NonEmpty(a) + NonEmpty(b)
  {
    if a == [] {
      assert a + b == b;
    } else {
      assert (a + b)[0] == a[0];
      assert (a + b)[1..] == a[1..] + b;
      NonEmptyAppend(a[1..], b);
    }
  }

  /** The first field of s is its leading run; the others are the fields after that run's separator. */
  lemma {:induction false} FieldsOfRun(s: string, sep: char)
    ensures Fields(s, sep)[0] == s[..RunLength(s, sep)]
    ensures RunLength(s, sep) == |s| ==> Fields(s, sep) == [s]
    ensures RunLength(s, sep) < |s| ==>
      Fields(s, sep)[1..] == Fields(s[RunLength(s, sep) + 1..], sep)
  {
    if s != [] && s[0] != sep {
      FieldsOfRun(s[1..], sep);
      var m := RunLength(s[1..], sep);
      assert [s[0]] + s[1..][..m] == s[..m + 1];
      if m < |s[1..]| {
        assert s[1..][m + 1..] == s[m + 2..];
      } else {
        assert [s[0]] + s[1..] == s;
      }
    } else if s != [] {
      assert s[1..] == s[RunLength(s, sep) + 1..];
    }
  }

  /**
   * strtok yields exactly the non-empty fields, in order: empty tokens are
   * skipped and nothing else is lost.
   */
  lemma {:induction false} TokensAreNonEmptyFields(s: string, sep: char)
    ensures Tokens(s, sep) == NonEmpty(Fields(s, sep))
    decreases |s|
  {
    if s != [] && s[0] == sep {
      TokensAreNonEmptyFields(s[1..], sep);
    } else if s != [] && RunLength(s, sep) < |s| {
      TokensAreNonEmptyFields(s[RunLength(s, sep) + 1..], sep);
    }
    TokensStep(s, sep);
  }

  /** The inductive step of TokensAreNonEmptyFields, given the hypothesis for the rest of s. */
  lemma TokensStep(s: string, sep: char)
    requires s != [] && s[0] == sep ==> Tokens(s[1..], sep) == NonEmpty(Fields(s[1..], sep))
    requires s != [] && s[0] != sep && RunLength(s, sep) < |s| ==>
      Tokens(s[RunLength(s, sep) + 1..], sep) == NonEmpty(Fields(s[RunLength(s, sep) + 1..], sep))
    ensures Tokens(s, sep) == NonEmpty(Fields(s, sep))
  {
    if s == [] {
    } else if s[0] == sep {
      EmptyFieldSkipped(s, sep);
    } else {
      TokensAfterRun(s, sep);
    }
  }

  /** A leading separator contributes only an empty field. */
  lemma EmptyFieldSkipped(s: string, sep: char)
    requires s != [] && s[0] == sep
    ensures NonEmpty(Fields(s, sep)) == NonEmpty(Fields(s[1..], sep))
  {
    assert Fields(s, sep) == [""] + Fields(s[1..], sep);
    NonEmptyAppend([""], Fields(s[1..], sep));
  }

  /** The inductive step of TokensAreNonEmptyFields for s starting with a token. */
  lemma TokensAfterRun(s: string, sep: char)
    requires s != [] && s[0] != sep
    requires var n := RunLength(s, sep);
      n < |s| ==> Tokens(s[n + 1..], sep) == NonEmpty(Fields(s[n + 1..], sep))
    ensures Tokens(s, sep) == NonEmpty(Fields(s, sep))
  {
    var n := RunLength(s, sep);
    FieldsOfRun(s, sep);
    var fs := Fields(s, sep);
    assert fs == [fs[0]] + fs[1..];
    NonEmptyAppend([fs[0]], fs[1..]);
    assert s[..n] != "" by { assert s[0] == s[..n][0]; }
    if n < |s| {
      assert s[n..][0] == sep && s[n..][1..] == s[n + 1..];
    }
  }

  lemma {:induction false} FieldsSplit(a: string, sep: char, b: string)
    ensures Fields(a + [sep] + b, sep) == Fields(a, sep) + Fields(b, sep)
  {
    if a == [] {
      assert a + [sep] + b == [sep] + b;
      assert ([sep] + b)[1..] == b;
    } else {
      var s := a + [sep] + b;
      assert s[0] == a[0] && s[1..] == a[1..] + [sep] + b;
      FieldsSplit(a[1..], sep, b);
    }
  }

  /**
   * A separator splits the tokens: tokenising "a<sep>b" yields the tokens
   * of a followed by those of b.
   */
  lemma TokensSplit(a: string, sep: char, b: string)
    ensures Tokens(a + [sep] + b, sep) == Tokens(a, sep) + Tokens(b, sep)
  {
    TokensAreNonEmptyFields(a + [sep] + b, sep);
    TokensAreNonEmptyFields(a, sep);
    TokensAreNonEmptyFields(b, sep);
    FieldsSplit(a, sep, b);
    NonEmptyAppend(Fields(a, sep), Fields(b, sep));
  }

  /** Tokenising "t<sep>rest" yields t followed by the tokens of rest. */
  lemma TokensCons(t: string, sep: char, rest: string)
    requires |t| > 0 && sep !in t
    ensures Tokens(t + [sep] + rest, sep) == [t] + Tokens(rest, sep)
  {
    var s := t + [sep] + rest;
    RunOfToken(t, sep, [sep] + rest);
    assert s[..|t|] == t;
    assert s[|t|..] == [sep] + rest;
    assert s[|t|..][1..] == rest;
  }

  /** Tokenising "<sep>rest" skips the separator. */
  lemma TokensSkip(sep: char, rest: string)
    ensures Tokens([sep] + rest, sep) == Tokens(rest, sep)
  {
    assert ([sep] + rest)[1..] == rest;
  }

  /** A single token tokenises to itself. */
  lemma TokensSingle(t: string, sep: char)
    requires |t| > 0 && sep !in t
    ensures Tokens(t, sep) == [t]
  {
    RunOfToken(t, sep, []);
    assert t + [] == t;
    assert t[|t|..] == [];
  }

  lemma {:induction false} RunOfToken(t: string, sep: char, rest: string)
    requires sep !in t
    requires rest == [] || rest[0] == sep
    ensures RunLength(t + rest, sep) == |t|
  {
    if t != [] {
      assert (t + rest)[1..] == t[1..] + rest;
      RunOfToken(t[1..], sep, rest);
    }
  }

  predicate IsSpace(c: char)
  {
    c == ' ' || c == '\t' || c == '\n' || c == '\r' || c == 11 as char || c == 12 as char
  }

  function SkipSpace(s: string): (r: string)
    ensures |r| <= |s| && r == s[|s| - |r|..]
    ensures r == [] || !IsSpace(r[0])
  {
    if s != [] && IsSpace(s[0]) then SkipSpace(s[1..]) else s
  }

  function WordLength(s: string): (n: nat)
    ensures n <= |s|
    ensures forall i :: 0 <= i < n ==> !IsSpace(s[i])
    ensures n < |s| ==> IsSpace(s[n])
  {
    if s == [] || IsSpace(s[0]) then 0 else 1 + WordLength(s[1..])
  }

  /**
   * sscanf(s, "<prefix>%s", buf): the literal prefix must match, then "%s"
   * skips white space and stores the following run of non-space characters.
   * None when the prefix does not match or no such character follows
   * (sscanf then stores nothing).
   */
  function ScanString(s: string, prefix: string): (r: Option<string>)
    ensures r.Some? ==> |prefix| <= |s| && s[..|prefix|] == prefix
    ensures r.Some? ==> |r.value| > 0 && forall c :: c in r.value ==> !IsSpace(c)
  {
    if |prefix| <= |s| && s[..|prefix|] == prefix then
      var t := SkipSpace(s[|prefix|..]);
      var n := WordLength(t);
      if n > 0 then Some(t[..n]) else None
    else None
  }

  predicate IsDigit(c: char) { '0' <= c <= '9' }

  function DigitsLength(s: string): (n: nat)
    ensures n <= |s|
    ensures forall i :: 0 <= i < n ==> IsDigit(s[i])
    ensures n < |s| ==> !IsDigit(s[n])
  {
    if s == [] || !IsDigit(s[0]) then 0 else 1 + DigitsLength(s[1..])
  }

  function Pow10(k: nat): (p: nat)
    ensures p >= 1
  {
    if k == 0 then 1 else 10 * Pow10(k - 1)
  }

  /** Decimal value of a string of digits, most significant first: below 10^|s|. */
  function DecimalValue(s: string): (v: nat)
    requires forall i :: 0 <= i < |s| ==> IsDigit(s[i])
    ensures v < Pow10(|s|)
  {
    if s == [] then 0
    else
      assert IsDigit(s[|s| - 1]);
      10 * DecimalValue(s[..|s| - 1]) + (s[|s| - 1] as int - '0' as int)
  }

  /**
   * Read from the front, each digit weighs the power of ten of the number of
   * digits after it: DecimalValue([d] + s) == d * 10^|s| + DecimalValue(s).
   */
  lemma {:induction false} DecimalValueLeading(d: char, s: string)
    requires IsDigit(d) && forall i :: 0 <= i < |s| ==> IsDigit(s[i])
    ensures DecimalValue([d] + s) == (d as int - '0' as int) * Pow10(|s|) + DecimalValue(s)
    decreases |s|
  {
    var ds := [d] + s;
    var a := d as int - '0' as int;
    if s == [] {
      assert ds[..|ds| - 1] == [];
    } else {
      var init := s[..|s| - 1];
      var last := s[|s| - 1] as int - '0' as int;
      assert ds[..|ds| - 1] == [d] + init && ds[|ds| - 1] == s[|s| - 1];
      LastDigit(ds);
      LastDigit(s);
      DecimalValueLeading(d, init);
      Shift(a, Pow10(|init|), DecimalValue(init), last);
    }
  }

  lemma LastDigit(s: string)
    requires s != [] && forall i :: 0 <= i < |s| ==> IsDigit(s[i])
    ensures DecimalValue(s) == 10 * DecimalValue(s[..|s| - 1]) + (s[|s| - 1] as int - '0' as int)
  {
  }

  lemma Shift(a: int, p: int, x: int, last: int)
    ensures 10 * (a * p + x) + last == a * (10 * p) + (10 * x + last)
  {
  }

  /**
   * sscanf(s, "<prefix>%d", &x): the literal prefix must match, then "%d"
   * skips white space, reads an optional sign and at least one digit.
   * None when nothing is stored.
   */
  function ScanInt(s: string, prefix: string): (r: Option<int>)
    ensures r.Some? ==> |prefix| <= |s| && s[..|prefix|] == prefix
  {
    if |prefix| <= |s| && s[..|prefix|] == prefix then
      var t := SkipSpace(s[|prefix|..]);
      var negative := t != [] && t[0] == '-';
      var u := if t != [] && (t[0] == '-' || t[0] == '+') then t[1..] else t;
      var n := DigitsLength(u);
      if n > 0 then
        var v: int := DecimalValue(u[..n]);
        Some(if negative then -v else v)
      else None
    else None
  }

  /** The text after a matched prefix. */
  lemma PrefixSplit(p: string, t: string)
    ensures |p| <= |p + t| && (p + t)[..|p|] == p && (p + t)[|p|..] == t
  {
  }

  lemma {:induction false} WordLengthOfWord(w: string, rest: string)
    requires forall i :: 0 <= i < |w| ==> !IsSpace(w[i])
    requires rest == [] || IsSpace(rest[0])
    ensures WordLength(w + rest) == |w|
  {
    if w != [] {
      assert (w + rest)[1..] == w[1..] + rest;
      WordLengthOfWord(w[1..], rest);
    }
  }

  lemma {:induction false} DigitsLengthOfDigits(ds: string, rest: string)
    requires forall i :: 0 <= i < |ds| ==> IsDigit(ds[i])
    requires rest == [] || !IsDigit(rest[0])
    ensures DigitsLength(ds + rest) == |ds|
  {
    if ds != [] {
      assert (ds + rest)[1..] == ds[1..] + rest;
      DigitsLengthOfDigits(ds[1..], rest);
    }
  }

  /**
   * "%s" stores exactly the word after the prefix: a non-empty run of
   * non-space characters ended by white space or the end of the input.
   */
  lemma {:induction false} ScanStringWord(p: string, w: string, rest: string)
    requires |w| > 0 && forall i :: 0 <= i < |w| ==> !IsSpace(w[i])
    requires rest == [] || IsSpace(rest[0])
    ensures ScanString(p + w + rest, p) == Some(w)
  {
    PrefixSplit(p, w + rest);
    assert p + w + rest == p + (w + rest);
    WordLengthOfWord(w, rest);
    assert SkipSpace(w + rest) == w + rest;
    assert (w + rest)[..|w|] == w;
  }

  /**
   * "%s" stores something exactly when the prefix matches and a non-space
   * character follows it, possibly after white space.
   */
  lemma ScanStringSome(s: string, p: string)
    ensures ScanString(s, p).Some? <==>
      |p| <= |s| && s[..|p|] == p && SkipSpace(s[|p|..]) != []
  {
  }

  /** The sign "%d" accepts before the digits: none, "-" or "+". */
  predicate IsSign(sgn: string) { sgn == [] || sgn == ['-'] || sgn == ['+'] }

  /** Digits after a sign, read the way "%d" strips the sign. */
  lemma SignStripped(sgn: string, u: string)
    requires IsSign(sgn) && u != [] && IsDigit(u[0])
    ensures var t := sgn + u;
      t != [] && !IsSpace(t[0]) &&
      (t[0] == '-' <==> sgn == ['-']) &&
      (if t[0] == '-' || t[0] == '+' then t[1..] else t) == u
  {
    if sgn != [] {
      assert (sgn + u)[1..] == u;
    }
  }

  /**
   * "%d" stores the signed decimal value of the digits after the prefix
   * and the optional sign, the digits ending at a non-digit or the end.
   */
  lemma {:induction false} ScanIntDigits(s: string, p: string, sgn: string, ds: string, rest: string)
    requires s == p + sgn + ds + rest
    requires IsSign(sgn)
    requires |ds| > 0 && forall i :: 0 <= i < |ds| ==> IsDigit(ds[i])
    requires rest == [] || !IsDigit(rest[0])
    ensures var v: int := DecimalValue(ds);
      ScanInt(s, p) == Some(if sgn == ['-'] then -v else v)
  {
    var u := ds + rest;
    var t := sgn + u;
    Regroup(p, sgn, ds, rest);
    DigitsOfSigned(sgn, ds, rest);
    ScanIntAfter(s, p, t, u, ds, sgn == ['-']);
  }

  /** What "%d" sees after the sign: the digits, ended by a non-digit or the end. */
  lemma DigitsOfSigned(sgn: string, ds: string, rest: string)
    requires IsSign(sgn)
    requires |ds| > 0 && forall i :: 0 <= i < |ds| ==> IsDigit(ds[i])
    requires rest == [] || !IsDigit(rest[0])
    ensures var t := sgn + (ds + rest);
      t != [] && !IsSpace(t[0]) && (t[0] == '-' <==> sgn == ['-']) &&
      (if t[0] == '-' || t[0] == '+' then t[1..] else t) == ds + rest
    ensures DigitsLength(ds + rest) == |ds| && (ds + rest)[..|ds|] == ds
  {
    SignStripped(sgn, ds + rest);
    DigitsLengthOfDigits(ds, rest);
    assert (ds + rest)[..|ds|] == ds;
  }

  /** ScanInt once the text after the prefix, the sign and the digits are known. */
  lemma ScanIntAfter(s: string, p: string, t: string, u: string, ds: string, negative: bool)
    requires s == p + t && t != [] && !IsSpace(t[0])
    requires (if t[0] == '-' || t[0] == '+' then t[1..] else t) == u
    requires |ds| > 0 && forall i :: 0 <= i < |ds| ==> IsDigit(ds[i])
    requires DigitsLength(u) == |ds| && u[..|ds|] == ds
    requires negative == (t[0] == '-')
    ensures var v: int := DecimalValue(ds);
      ScanInt(s, p) == Some(if negative then -v else v)
  {
    PrefixSplit(p, t);
    SkipNothing(t);
  }

  lemma Regroup(a: string, b: string, c: string, d: string)
    ensures a + b + c + d == a + (b + (c + d))
  {
    assert a + b + c == a + (b + c);
    assert a + (b + c) + d == a + ((b + c) + d);
    assert (b + c) + d == b + (c + d);
  }

  lemma SkipNothing(t: string)
    requires t != [] && !IsSpace(t[0])
    ensures SkipSpace(t) == t
  {
  }

  /**
   * "%d" stores something exactly when the prefix matches and, after white
   * space and an optional sign, a digit follows.
   */
  lemma ScanIntSome(s: string, p: string)
    ensures ScanInt(s, p).Some? <==>
      |p| <= |s| && s[..|p|] == p &&
      var t := SkipSpace(s[|p|..]);
      var u := if t != [] && (t[0] == '-' || t[0] == '+') then t[1..] else t;
      u != [] && IsDigit(u[0])
  {
  }
}
