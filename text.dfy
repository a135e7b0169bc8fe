/** The string handling both passes share: Python's `str.strip()`,
    `str.lower()`, the `#` comment removal, the split at the first `:` and the
    tokeniser `re.split(r'[,\s()]+', ...)` with empty parts dropped; and the
    decimal and hexadecimal digit strings that `f'x{i}'` and `int()` use. */
module Text {

  /** Python's `str.isspace()`: the characters `str.strip()` removes and
      `\s` matches. */
  predicate IsSpace(c: char)
  {
    c == ' ' || '\t' <= c <= '\r' || '\U{1C}' <= c <= '\U{1F}' || c == '\U{85}' || c == '\U{A0}'
    || c == '\U{1680}' || '\U{2000}' <= c <= '\U{200A}' || c == '\U{2028}' || c == '\U{2029}'
    || c == '\U{202F}' || c == '\U{205F}' || c == '\U{3000}'
  }

  function TrimStart(s: string): (r: string)
    ensures |r| <= |s| && r == s[|s| - |r|..]
    ensures forall i :: 0 <= i < |s| - |r| ==> IsSpace(s[i])
    ensures r != [] ==> !IsSpace(r[0])
  {
    if s != [] && IsSpace(s[0]) then TrimStart(s[1..]) else s
  }

  function TrimEnd(s: string): (r: string)
    ensures |r| <= |s| && r == s[..|r|]
    ensures forall i :: |r| <= i < |s| ==> IsSpace(s[i])
    ensures r != [] ==> !IsSpace(r[|r| - 1])
  {
    if s != [] && IsSpace(s[|s| - 1]) then TrimEnd(s[..|s| - 1]) else s
  }

  /** The number of whitespace characters `str.strip()` removes at the front. */
  function Leading(s: string): (n: nat)
    ensures n <= |s|
  {
    |s| - |TrimStart(s)|
  }

  /** `str.strip()`: whitespace removed at both ends. */
  function Trim(s: string): (r: string)
    ensures |r| <= |s|
    ensures r == [] || (!IsSpace(r[0]) && !IsSpace(r[|r| - 1]))
  {
    TrimEnd(TrimStart(s))
  }

  /** What `Trim` keeps is an infix of its argument. */
  lemma TrimInfix(s: string)
    ensures Leading(s) + |Trim(s)| <= |s|
    ensures Trim(s) == s[Leading(s)..Leading(s) + |Trim(s)|]
  {
    var t := TrimStart(s);
    var r := TrimEnd(t);
    var n := |s| - |t|;
    calc {
      Trim(s);
      r;
      t[..|r|];
      s[n..][..|r|];
      { SliceOfSuffix(s, n, |r|); }
      s[n..n + |r|];
    }
  }

  lemma SliceOfSuffix(s: string, n: nat, m: nat)
    requires n + m <= |s|
    ensures s[n..][..m] == s[n..n + m]
  {
  }

  /** Everything `Trim` cuts off on either side is whitespace. */
  lemma TrimCuts(s: string)
    ensures Leading(s) + |Trim(s)| <= |s|
    ensures forall k :: 0 <= k < Leading(s) ==> IsSpace(s[k])
    ensures forall k :: Leading(s) + |Trim(s)| <= k < |s| ==> IsSpace(s[k])
  {
    var t := TrimStart(s);
    SuffixSpaces(s, |s| - |t|, |TrimEnd(t)|);
  }

  /** The whitespace `TrimEnd` cuts from the suffix of `s` at `n` is at the
      end of `s` itself. */
  lemma SuffixSpaces(s: string, n: nat, m: nat)
    requires n <= |s| && m == |TrimEnd(s[n..])|
    ensures forall k :: n + m <= k < |s| ==> IsSpace(s[k])
  {
    var t := s[n..];
    assert forall i :: m <= i < |t| ==> IsSpace(t[i]);
    assert forall k :: n <= k < |s| ==> s[k] == t[k - n];
  }

  /** A string that neither starts nor ends with whitespace is its own `Trim`. */
  lemma TrimFixed(s: string)
    requires s == [] || (!IsSpace(s[0]) && !IsSpace(s[|s| - 1]))
    ensures Trim(s) == s
  {
    assert TrimStart(s) == s;
  }

  /** `Trim` only removes characters, so it keeps out any it did not see. */
  lemma TrimKeeps(s: string, c: char)
    requires c !in s
    ensures c !in Trim(s)
  {
    TrimInfix(s);
  }

  lemma TrimIdempotent(s: string)
    ensures Trim(Trim(s)) == Trim(s)
  {
    TrimFixed(Trim(s));
  }

  function LowerChar(c: char): (d: char)
    ensures IsSpace(d) == IsSpace(c)
  {
    if 'A' <= c <= 'Z' then (c as int - 'A' as int + 'a' as int) as char else c
  }

  /** `str.lower()` on the ASCII letters; every other character is kept. */
  function Lower(s: string): (r: string)
    ensures |r| == |s|
    ensures forall i :: 0 <= i < |s| ==> r[i] == LowerChar(s[i])
  {
    if s == [] then [] else [LowerChar(s[0])] + Lower(s[1..])
  }

  lemma {:induction false} LowerIdempotent(s: string)
    ensures Lower(Lower(s)) == Lower(s)
  {
    var l := Lower(s);
    assert forall i :: 0 <= i < |s| ==> LowerChar(l[i]) == l[i];
  }

  /** Lower-casing neither creates nor removes whitespace, so it commutes with `Trim`. */
  lemma LowerTrim(s: string)
    ensures Trim(Lower(Trim(s))) == Lower(Trim(s))
  {
    TrimFixed(Lower(Trim(s)));
  }

  /** Drops the text from the current position up to, not including, the next newline. */
  function SkipLine(s: string): (r: string)
    ensures |r| <= |s| && r == s[|s| - |r|..]
    ensures r == [] || r[0] == '\n'
    ensures '\n' !in s[..|s| - |r|]
  {
    if s == [] || s[0] == '\n' then s else SkipLine(s[1..])
  }

  /** `re.sub(r'#.*', '', s)`: every `#` and the rest of its line are removed
      (`.` does not match a newline). */
  function StripComment(s: string): (r: string)
    ensures '#' !in r
    ensures |r| <= |s|
    decreases |s|
  {
    if s == [] then []
    else if s[0] == '#' then StripComment(SkipLine(s[1..]))
    else [s[0]] + StripComment(s[1..])
  }

  function IndexOf(s: string, c: char): (i: nat)
    requires c in s
    ensures i < |s| && s[i] == c && c !in s[..i]
  {
    if s[0] == c then 0 else 1 + IndexOf(s[1..], c)
  }

  /** On a single line (what `splitlines()` yields) the comment is everything
      from the first `#` on. */
  lemma {:induction false} StripCommentSingleLine(s: string)
    requires '\n' !in s
    ensures StripComment(s) == if '#' in s then s[..IndexOf(s, '#')] else s
  {
    if s == [] {
    } else if s[0] == '#' {
      assert SkipLine(s[1..]) == [];
    } else {
      assert s == [s[0]] + s[1..];
      StripCommentSingleLine(s[1..]);
      if '#' in s {
        assert IndexOf(s, '#') == 1 + IndexOf(s[1..], '#');
        assert s[..IndexOf(s, '#')] == [s[0]] + s[1..][..IndexOf(s[1..], '#')];
      }
    }
  }

  /** `s.split(':')[0]` and `s.split(':', 1)[1]`: the text before and after the first colon. */
  function BeforeColon(s: string): (r: string)
    requires ':' in s
    ensures ':' !in r && |r| < |s| && s[..|r| + 1] == r + [':']
  {
    s[..IndexOf(s, ':')]
  }

  function AfterColon(s: string): (r: string)
    requires ':' in s
    ensures s == BeforeColon(s) + [':'] + r
  {
    s[IndexOf(s, ':') + 1..]
  }

  /** The separator class `[,\s()]` of the tokeniser. */
  predicate IsSeparator(c: char)
  {
    c == ',' || c == '(' || c == ')' || IsSpace(c)
  }

  function SkipSeparators(s: string): (r: string)
    ensures |r| <= |s| && r == s[|s| - |r|..]
    ensures forall i :: 0 <= i < |s| - |r| ==> IsSeparator(s[i])
    ensures r != [] ==> !IsSeparator(r[0])
  {
    if s != [] && IsSeparator(s[0]) then SkipSeparators(s[1..]) else s
  }

  function Word(s: string): (w: string)
    ensures |w| <= |s| && w == s[..|w|]
    ensures forall i :: 0 <= i < |w| ==> !IsSeparator(w[i])
    ensures |w| < |s| ==> IsSeparator(s[|w|])
  {
    if s == [] || IsSeparator(s[0]) then [] else [s[0]] + Word(s[1..])
  }

  /** A non-empty run of non-separator characters. */
  predicate IsWord(w: string)
  {
    w != [] && forall i :: 0 <= i < |w| ==> !IsSeparator(w[i])
  }

  /** `[p for p in re.split(r'[,\s()]+', s) if p]`: the maximal runs of
      non-separator characters, in order. */
  function Tokens(s: string): (ts: seq<string>)
    ensures forall k :: 0 <= k < |ts| ==> IsWord(ts[k])
    decreases |s|
  {
    var t := SkipSeparators(s);
    if t == [] then [] else var w := Word(t); [w] + Tokens(t[|w|..])
  }

  /** The first token is a maximal run: only separators come before it, a
      separator or the end of `s` comes right after it, and the remaining
      tokens are those of the rest `b`. */
  lemma TokensSplit(s: string) returns (a: string, b: string)
    requires Tokens(s) != []
    ensures s == a + Tokens(s)[0] + b
    ensures forall i :: 0 <= i < |a| ==> IsSeparator(a[i])
    ensures b == [] || IsSeparator(b[0])
    ensures Tokens(b) == Tokens(s)[1..]
  {
    var t := SkipSeparators(s);
    var w := Word(t);
    a, b := s[..|s| - |t|], t[|w|..];
    assert Tokens(s) == [w] + Tokens(b);
    assert forall i :: 0 <= i < |a| ==> a[i] == s[i];
    Rejoin(t, |w|);
    Rejoin(s, |s| - |t|);
    AppendAssoc(a, w, b);
  }

  lemma AppendAssoc(x: string, y: string, z: string)
    ensures x + y + z == x + (y + z)
  {
  }

  lemma Rejoin(x: string, n: nat)
    requires n <= |x|
    ensures x == x[..n] + x[n..]
  {
  }

  /** A line has no tokens exactly when it is all separators. */
  lemma TokensNone(s: string)
    ensures Tokens(s) == [] <==> forall i :: 0 <= i < |s| ==> IsSeparator(s[i])
  {
    var t := SkipSeparators(s);
    if t != [] {
      assert !IsSeparator(s[|s| - |t|]);
    }
  }

  /** The characters of `s` that are not separators, in order. */
  function Kept(s: string): string
  {
    if s == [] then [] else (if IsSeparator(s[0]) then [] else [s[0]]) + Kept(s[1..])
  }

  function Concat(ts: seq<string>): string
  {
    if ts == [] then [] else ts[0] + Concat(ts[1..])
  }

  lemma {:induction false} KeptAppend(a: string, b: string)
    ensures Kept(a + b) == Kept(a) + Kept(b)
  {
    if a != [] {
      assert (a + b)[0] == a[0] && (a + b)[1..] == a[1..] + b;
      KeptAppend(a[1..], b);
    } else {
      assert a + b == b;
    }
  }

  lemma {:induction false} KeptSeparators(s: string)
    requires forall i :: 0 <= i < |s| ==> IsSeparator(s[i])
    ensures Kept(s) == []
  {
    if s != [] { KeptSeparators(s[1..]); }
  }

  lemma {:induction false} KeptWord(s: string)
    requires forall i :: 0 <= i < |s| ==> !IsSeparator(s[i])
    ensures Kept(s) == s
  {
    if s != [] { KeptWord(s[1..]); }
  }

  lemma KeptSkip(s: string)
    ensures Kept(SkipSeparators(s)) == Kept(s)
  {
    var t := SkipSeparators(s);
    var lead := s[..|s| - |t|];
    assert s == lead + t;
    KeptAppend(lead, t);
    KeptSeparators(lead);
  }

  lemma KeptSplit(t: string)
    ensures Kept(t) == Word(t) + Kept(t[|Word(t)|..])
  {
    var w := Word(t);
    assert t == w + t[|w|..];
    KeptAppend(w, t[|w|..]);
    KeptWord(w);
  }

  /** Tokenising loses exactly the separators: the tokens, joined, are the
      non-separator characters of the line. */
  lemma {:induction false} TokensKeep(s: string)
    ensures Concat(Tokens(s)) == Kept(s)
    decreases |s|
  {
    var t := SkipSeparators(s);
    KeptSkip(s);
    if t != [] {
      var w := Word(t);
      var rest := t[|w|..];
      KeptSplit(t);
      TokensKeep(rest);
      assert Tokens(s) == [w] + Tokens(rest);
      assert Concat([w] + Tokens(rest)) == w + Concat(Tokens(rest));
    }
  }

  function DigitChar(d: nat): (c: char)
    requires d < 16
  {
    if d < 10 then ('0' as int + d) as char else ('a' as int + d - 10) as char
  }

  predicate IsDecimalDigit(c: char) { '0' <= c <= '9' }

  predicate IsHexDigit(c: char) { '0' <= c <= '9' || 'a' <= c <= 'f' || 'A' <= c <= 'F' }

  function DigitValue(c: char): (d: nat)
    requires IsHexDigit(c)
    ensures d < 16 && (IsDecimalDigit(c) ==> d < 10)
  {
    if '0' <= c <= '9' then c as int - '0' as int
    else if 'a' <= c <= 'f' then c as int - 'a' as int + 10
    else c as int - 'A' as int + 10
  }

  /** `f'{n}'`: the decimal digits of a natural number, most significant first. */
  function NatToDecimal(n: nat): (s: string)
    ensures s != [] && forall i :: 0 <= i < |s| ==> IsDecimalDigit(s[i])
  {
    if n < 10 then [DigitChar(n)] else NatToDecimal(n / 10) + [DigitChar(n % 10)]
  }

  /** The lower-case hexadecimal digits of a natural number, most significant first. */
  function NatToHex(n: nat): (s: string)
    ensures s != [] && forall i :: 0 <= i < |s| ==> IsHexDigit(s[i])
  {
    if n < 16 then [DigitChar(n)] else NatToHex(n / 16) + [DigitChar(n % 16)]
  }

  function DecimalValue(ds: string): nat
    requires forall i :: 0 <= i < |ds| ==> IsDecimalDigit(ds[i])
  {
    if ds == [] then 0
    else
      assert IsDecimalDigit(ds[|ds| - 1]);
      DecimalValue(ds[..|ds| - 1]) * 10 + DigitValue(ds[|ds| - 1])
  }

  function HexValue(ds: string): nat
    requires forall i :: 0 <= i < |ds| ==> IsHexDigit(ds[i])
  {
    if ds == [] then 0 else HexValue(ds[..|ds| - 1]) * 16 + DigitValue(ds[|ds| - 1])
  }

  lemma {:induction false} DecimalRoundTrip(n: nat)
    ensures DecimalValue(NatToDecimal(n)) == n
  {
    if n >= 10 {
      var s := NatToDecimal(n);
      assert s[..|s| - 1] == NatToDecimal(n / 10);
      DecimalRoundTrip(n / 10);
    }
  }

  lemma {:induction false} HexRoundTrip(n: nat)
    ensures HexValue(NatToHex(n)) == n
  {
    if n >= 16 {
      var s := NatToHex(n);
      assert s[..|s| - 1] == NatToHex(n / 16);
      HexRoundTrip(n / 16);
    }
  }

  lemma DecimalInjective(a: nat, b: nat)
    requires NatToDecimal(a) == NatToDecimal(b)
    ensures a == b
  {
    DecimalRoundTrip(a);
    DecimalRoundTrip(b);
  }
}
