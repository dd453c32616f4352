/** The JavaScript string built-ins the bot relies on: `Number.prototype.toString`,
    `parseInt` (decimal only), `String.prototype.trim`, `split` with a one-character
    separator, `startsWith`/`replace` of a prefix and `toUpperCase` on ASCII letters. */
module JsText {
  import opened Wrappers

  predicate IsDigit(c: char) { '0' <= c <= '9' }

  predicate AllDigits(s: string) { forall i :: 0 <= i < |s| ==> IsDigit(s[i]) }

  function DigitChar(d: nat): (c: char)
    requires d < 10
    ensures IsDigit(c)
  {
    (('0' as int) + d) as char
  }

  function DigitValue(c: char): (d: nat)
    requires IsDigit(c)
    ensures d < 10 && DigitChar(d) == c
  {
    (c as int) - ('0' as int)
  }

  /** Decimal rendering of a natural number, as `n.toString()` produces it. */
  function NatToString(n: nat): (s: string)
    ensures |s| >= 1 && AllDigits(s)
    ensures n >= 10 ==> s[0] != '0'
    decreases n
  {
    if n < 10 then [DigitChar(n)] else NatToString(n / 10) + [DigitChar(n % 10)]
  }

  /** The value of a non-empty run of decimal digits. */
  function DigitsValue(ds: string): nat
    requires AllDigits(ds)
    decreases |ds|
  {
    if ds == [] then 0 else DigitsValue(ds[..|ds| - 1]) * 10 + DigitValue(ds[|ds| - 1])
  }

  /** The longest prefix of `s` made of decimal digits. */
  function DigitPrefix(s: string): (ds: string)
    ensures ds <= s && AllDigits(ds)
    ensures |ds| < |s| ==> !IsDigit(s[|ds|])
    decreases |s|
  {
    if s == [] || !IsDigit(s[0]) then [] else [s[0]] + DigitPrefix(s[1..])
  }

  /** The white space and line terminators `trim` and `parseInt` skip (the ASCII ones, the
      no-break space, the byte-order mark and the two Unicode line separators). */
  predicate IsSpace(c: char) {
    c == ' ' || c == '\t' || c == '\n' || c == '\r' || c == '\U{B}' || c == '\U{C}'
    || c == '\U{A0}' || c == '\U{FEFF}' || c == '\U{2028}' || c == '\U{2029}'
  }

  function TrimStart(s: string): (t: string)
    ensures |t| <= |s| && t == s[|s| - |t|..]
    ensures forall i :: 0 <= i < |s| - |t| ==> IsSpace(s[i])
    ensures t == [] || !IsSpace(t[0])
    decreases |s|
  {
    if s != [] && IsSpace(s[0]) then TrimStart(s[1..]) else s
  }

  function TrimEnd(s: string): (t: string)
    ensures |t| <= |s| && t == s[..|t|]
    ensures forall i :: |t| <= i < |s| ==> IsSpace(s[i])
    ensures t == [] || !IsSpace(t[|t| - 1])
    decreases |s|
  {
    if s != [] && IsSpace(s[|s| - 1]) then TrimEnd(s[..|s| - 1]) else s
  }

  /** Every character of a suffix occurs in the whole. */
  lemma SuffixMembers(s: string, k: nat)
    requires k <= |s|
    ensures forall c :: c in s[k..] ==> c in s
  {
    forall c | c in s[k..]
      ensures c in s
    {
      var i :| 0 <= i < |s| - k && s[k..][i] == c;
      assert s[k + i] == c;
    }
  }

  /** Every character of a prefix occurs in the whole. */
  lemma PrefixMembers(s: string, k: nat)
    requires k <= |s|
    ensures forall c :: c in s[..k] ==> c in s
  {
    forall c | c in s[..k]
      ensures c in s
    {
      var i :| 0 <= i < k && s[..k][i] == c;
      assert s[i] == c;
    }
  }

  /** A string that neither starts nor ends with white space is its own trim. */
  lemma TrimUnspaced(s: string)
    requires s == [] || (!IsSpace(s[0]) && !IsSpace(s[|s| - 1]))
    ensures Trim(s) == s
  {
  }

  /** `t` is the run of `s` that starts at `k`, and everything of `s` around it is
      white space. */
  predicate SpaceAround(s: string, t: string, k: nat) {
    k + |t| <= |s| && (forall j :: 0 <= j < |t| ==> t[j] == s[k + j])
    && (forall i :: 0 <= i < k ==> IsSpace(s[i]))
    && (forall i :: k + |t| <= i < |s| ==> IsSpace(s[i]))
  }

  /** `s.trim()`: the slice of `s` between its leading and trailing white space. */
  function Trim(s: string): (t: string)
    ensures |t| <= |s| && forall c :: c in t ==> c in s
    ensures t == [] || (!IsSpace(t[0]) && !IsSpace(t[|t| - 1]))
  {
    var u := TrimStart(s);
    var t := TrimEnd(u);
    SuffixMembers(s, |s| - |u|);
    PrefixMembers(u, |t|);
    t
  }

  /** What `trim` removes is exactly the white space before and after the text: the result
      is the run of `s` that starts after the leading white space, and only white space
      surrounds it. */
  lemma TrimSpaceAround(s: string)
    ensures SpaceAround(s, Trim(s), |s| - |TrimStart(s)|)
  {
    var u := TrimStart(s);
    TrimSlice(s, u, TrimEnd(u));
  }

  /** Trimming the start and then the end leaves a slice with only white space around it. */
  lemma TrimSlice(s: string, u: string, t: string)
    requires |u| <= |s| && u == s[|s| - |u|..]
    requires forall i :: 0 <= i < |s| - |u| ==> IsSpace(s[i])
    requires |t| <= |u| && t == u[..|t|]
    requires forall i :: |t| <= i < |u| ==> IsSpace(u[i])
    ensures SpaceAround(s, t, |s| - |u|)
  {
    var k := |s| - |u|;
    forall j | 0 <= j < |t|
      ensures t[j] == s[k + j]
    {
      assert t[j] == u[j];
    }
    forall i | k + |t| <= i < |s|
      ensures IsSpace(s[i])
    {
      assert s[i] == u[i - k];
    }
  }

  /** `parseInt(s)` for decimal input: leading white space is skipped, one optional sign
      is read, then the longest run of digits; no digits at all gives NaN (None). */
  function ParseInt(s: string): (r: Option<int>)
  {
    ReadSigned(TrimStart(s))
  }

  /** The sign and digits `parseInt` reads once the white space is gone. */
  function ReadSigned(t: string): (r: Option<int>)
  {
    if |t| > 0 && t[0] == '-' then Negate(ReadDigits(t[1..]))
    else if |t| > 0 && t[0] == '+' then ReadDigits(t[1..])
    else ReadDigits(t)
  }

  /** The minus sign applied to a reading, if there is one. */
  function Negate(r: Option<int>): (negated: Option<int>) {
    if r.Some? then Some(-r.value) else None
  }

  /** The value of the longest run of digits at the start of `t`, if there is one. */
  function ReadDigits(t: string): (r: Option<int>)
  {
    var ds := DigitPrefix(t);
    if ds == [] then None else Some(DigitsValue(ds))
  }

  lemma {:induction false} DigitsValueOfNatToString(n: nat)
    ensures DigitsValue(NatToString(n)) == n
    decreases n
  {
    var s := NatToString(n);
    if n >= 10 {
      DigitsValueOfNatToString(n / 10);
      assert s[..|s| - 1] == NatToString(n / 10);
    }
  }

  lemma {:induction false} DigitPrefixOfDigits(ds: string, rest: string)
    requires AllDigits(ds)
    requires rest == [] || !IsDigit(rest[0])
    ensures DigitPrefix(ds + rest) == ds
    decreases |ds|
  {
    if ds != [] {
      assert (ds + rest)[1..] == ds[1..] + rest;
      DigitPrefixOfDigits(ds[1..], rest);
    }
  }

  /** Text that does not start with white space loses nothing at its start. */
  lemma TrimStartUnspaced(t: string)
    requires |t| > 0 && !IsSpace(t[0])
    ensures TrimStart(t) == t
  {
  }

  /** Text that starts with a digit is read from its first character, without a sign. */
  lemma ParseIntUnsigned(t: string)
    requires |t| > 0 && IsDigit(t[0])
    ensures ParseInt(t) == Some(DigitsValue(DigitPrefix(t)))
  {
    assert !IsSpace(t[0]);
    TrimStartUnspaced(t);
    assert DigitPrefix(t) != [];
  }

  /** `parseInt` reads back what `toString` writes, and stops at the first non-digit. */
  lemma ParseIntOfNatToString(n: nat, rest: string)
    requires rest == [] || !IsDigit(rest[0])
    ensures ParseInt(NatToString(n) + rest) == Some(n)
  {
    var s := NatToString(n);
    assert (s + rest)[0] == s[0];
    ParseIntUnsigned(s + rest);
    DigitPrefixOfDigits(s, rest);
    DigitsValueOfNatToString(n);
  }

  /** A number written out has no white space to trim. */
  lemma TrimOfNatToString(n: nat)
    ensures Trim(NatToString(n)) == NatToString(n)
  {
    var m := NatToString(n);
    assert IsDigit(m[0]) && IsDigit(m[|m| - 1]);
    TrimUnspaced(m);
  }

  /** `parseInt(String(n)) === n` */
  lemma ParseIntOfNat(n: nat)
    ensures ParseInt(NatToString(n)) == Some(n)
  {
    ParseIntOfNatToString(n, "");
    assert NatToString(n) + "" == NatToString(n);
  }

  /** A string with no digit in it is NaN to `parseInt`. */
  lemma ParseIntNoDigits(s: string)
    requires forall c :: c in s ==> !IsDigit(c)
    ensures ParseInt(s) == None
  {
    var t := TrimStart(s);
    if |t| > 0 {
      assert t[0] == s[|s| - |t|];
    }
    if |t| > 1 {
      assert t[1] == s[|s| - |t| + 1];
    }
  }

  /** The index of the first occurrence of `c` in `s`. */
  function IndexOf(s: string, c: char): (i: nat)
    requires c in s
    ensures i < |s| && s[i] == c && c !in s[..i]
  {
    if s[0] == c then 0 else 1 + IndexOf(s[1..], c)
  }

  /** `s.split(sep)` for a one-character separator: every piece between separators, so
      there is always at least one piece. */
  function Split(s: string, sep: char): (parts: seq<string>)
    ensures |parts| >= 1
    ensures forall i :: 0 <= i < |parts| ==> sep !in parts[i]
    ensures sep !in s ==> parts == [s]
    ensures forall i, c :: 0 <= i < |parts| && c in parts[i] ==> c in s
    decreases |s|
  {
    if sep !in s then [s]
    else
      var i := IndexOf(s, sep);
      var rest := Split(s[i + 1..], sep);
      assert forall c :: c in s[i + 1..] ==> c in s;
      assert forall c :: c in s[..i] ==> c in s;
      [s[..i]] + rest
  }

  /** `parts.join(sep)`, the inverse of Split. */
  function Join(parts: seq<string>, sep: char): string
    requires |parts| >= 1
    decreases |parts|
  {
    if |parts| == 1 then parts[0] else parts[0] + [sep] + Join(parts[1..], sep)
  }

  lemma {:induction false} JoinSplit(s: string, sep: char)
    ensures Join(Split(s, sep), sep) == s
    decreases |s|
  {
    if sep in s {
      var i := IndexOf(s, sep);
      var a, b := s[..i], s[i + 1..];
      assert s == a + [sep] + b;
      SplitFirst(a, b, sep);
      JoinSplit(b, sep);
      var parts := [a] + Split(b, sep);
      assert parts[0] == a && parts[1..] == Split(b, sep);
    }
  }

  lemma {:induction false} SplitJoin(parts: seq<string>, sep: char)
    requires |parts| >= 1
    requires forall i :: 0 <= i < |parts| ==> sep !in parts[i]
    ensures Split(Join(parts, sep), sep) == parts
    decreases |parts|
  {
    if |parts| > 1 {
      SplitFirst(parts[0], Join(parts[1..], sep), sep);
      SplitJoin(parts[1..], sep);
      assert parts == [parts[0]] + parts[1..];
    }
  }

  /** The first piece is the text up to the first separator, or all of it. */
  lemma SplitHead(s: string, sep: char)
    ensures var h := Split(s, sep)[0];
      h <= s && sep !in h && (|h| < |s| ==> s[|h|] == sep)
  {
    if sep in s {
      var i := IndexOf(s, sep);
      assert Split(s, sep)[0] == s[..i];
    }
  }

  /** There is a second piece exactly when the first stops short of the end, and it is
      the first piece of what follows that separator. */
  lemma SplitSecond(s: string, sep: char)
    ensures var h := Split(s, sep)[0];
      && (|h| == |s| ==> |Split(s, sep)| == 1)
      && (|h| < |s| ==> |Split(s, sep)| > 1 && Split(s, sep)[1] == Split(s[|h| + 1..], sep)[0])
  {
    if sep in s {
      var i := IndexOf(s, sep);
      var a, b := s[..i], s[i + 1..];
      assert s == a + [sep] + b;
      SplitFirst(a, b, sep);
    }
  }

  /** Splitting `a + sep + b` where `a` holds no separator gives `a` first and then the
      pieces of `b`. */
  lemma SplitFirst(a: string, b: string, sep: char)
    requires sep !in a
    ensures Split(a + [sep] + b, sep) == [a] + Split(b, sep)
  {
    var s := a + [sep] + b;
    assert s[|a|] == sep;
    assert s[..|a|] == a;
    assert IndexOf(s, sep) == |a|;
    assert s[|a| + 1..] == b;
  }

  function UpperAscii(c: char): (u: char)
  {
    if 'a' <= c <= 'z' then (c as int - 32) as char else c
  }

  /** `s.toUpperCase()` on ASCII letters; every other character is kept. */
  function ToUpper(s: string): (u: string)
    ensures |u| == |s| && forall i :: 0 <= i < |s| ==> u[i] == UpperAscii(s[i])
  {
    seq(|s|, i requires 0 <= i < |s| => UpperAscii(s[i]))
  }
}
