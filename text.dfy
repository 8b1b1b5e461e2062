/**
 * The few Python `str` operations the two scripts rely on, on `seq<char>`:
 * `strip()`, `strip(chars)`, `split(sep)`, `split(sep, 1)`, `sep.join(...)`,
 * `lower()` and the decimal forms of `int(...)` and `str(int)`.
 */
module Text {
  import opened Wrappers

  type String = seq<char>

  /** The characters for which Python's `str.isspace()` holds; `str.strip()` with no argument removes these. */
  const Whitespace: set<char> := {
    '\t', '\n', '\U{000B}', '\U{000C}', '\r', '\U{001C}', '\U{001D}', '\U{001E}', '\U{001F}', ' ',
    '\U{0085}', '\U{00A0}', '\U{1680}', '\U{2000}', '\U{2001}', '\U{2002}', '\U{2003}', '\U{2004}',
    '\U{2005}', '\U{2006}', '\U{2007}', '\U{2008}', '\U{2009}', '\U{200A}', '\U{2028}', '\U{2029}',
    '\U{202F}', '\U{205F}', '\U{3000}'
  }

  /** `s.lstrip(cs)` */
  function LStrip(s: String, cs: set<char>): String {
    if |s| > 0 && s[0] in cs then LStrip(s[1..], cs) else s
  }

  /** `s.rstrip(cs)` */
  function RStrip(s: String, cs: set<char>): String {
    if |s| > 0 && s[|s| - 1] in cs then RStrip(s[..|s| - 1], cs) else s
  }

  /** `s.strip(cs)` */
  function StripSet(s: String, cs: set<char>): String {
    RStrip(LStrip(s, cs), cs)
  }

  /** `lstrip` keeps the longest suffix that does not start with a character of `cs`. */
  lemma {:induction false} LStripSpec(s: String, cs: set<char>)
    ensures var r := LStrip(s, cs);
      && |r| <= |s| && r == s[|s| - |r|..]
      && (forall k :: 0 <= k < |s| - |r| ==> s[k] in cs)
      && (r == [] || r[0] !in cs)
  {
    if |s| > 0 && s[0] in cs {
      LStripSpec(s[1..], cs);
    }
  }

  /** `rstrip` keeps the longest prefix that does not end with a character of `cs`. */
  lemma {:induction false} RStripSpec(s: String, cs: set<char>)
    ensures var r := RStrip(s, cs);
      && |r| <= |s| && r == s[..|r|]
      && (forall k :: |r| <= k < |s| ==> s[k] in cs)
      && (r == [] || r[|r| - 1] !in cs)
  {
    if |s| > 0 && s[|s| - 1] in cs {
      RStripSpec(s[..|s| - 1], cs);
    }
  }

  /**
   * `strip` removes exactly the run of characters of `cs` at each end: what is left is
   * a slice of `s` that neither starts nor ends with one of them, and everything cut
   * off on either side belongs to `cs`.
   */
  lemma StripSetSpec(s: String, cs: set<char>)
    ensures var r, i := StripSet(s, cs), |s| - |LStrip(s, cs)|;
      && (r == [] || (r[0] !in cs && r[|r| - 1] !in cs))
      && 0 <= i <= |s| - |r| && r == s[i..i + |r|]
      && (forall k :: 0 <= k < i ==> s[k] in cs)
      && (forall k :: i + |r| <= k < |s| ==> s[k] in cs)
  {
    var l := LStrip(s, cs);
    var r := RStrip(l, cs);
    LStripSpec(s, cs);
    RStripSpec(l, cs);
    var i := |s| - |l|;
    assert r == s[i..][..|r|] == s[i..i + |r|];
    assert forall k :: i + |r| <= k < |s| ==> s[k] == l[k - i];
  }

  /** Stripping only removes characters. */
  lemma StripSetChars(s: String, cs: set<char>)
    ensures forall c :: c in StripSet(s, cs) ==> c in s
  {
    var l := LStrip(s, cs);
    LStripSpec(s, cs);
    RStripSpec(l, cs);
    assert forall c :: c in RStrip(l, cs) ==> c in l;
  }

  /** `s.strip()` */
  function Strip(s: String): String {
    StripSet(s, Whitespace)
  }

  /** `s.strip(c)` for a one-character argument. */
  function StripChar(s: String, c: char): String {
    StripSet(s, {c})
  }

  /** Number of occurrences of `c` in `s`. */
  function Count(s: String, c: char): nat {
    multiset(s)[c]
  }

  /** `s.split(sep)` for a one-character separator: the pieces between the separators, empty ones included. */
  function Split(s: String, sep: char): (r: seq<String>)
    ensures |r| >= 1
    ensures forall i :: 0 <= i < |r| ==> sep !in r[i]
    decreases |s|
  {
    if |s| == 0 then [[]]
    else
      var rest := Split(s[1..], sep);
      if s[0] == sep then [[]] + rest else [[s[0]] + rest[0]] + rest[1..]
  }

  /** A split yields one piece more than there are separators. */
  lemma {:induction false} SplitLength(s: String, sep: char)
    ensures |Split(s, sep)| == Count(s, sep) + 1
    decreases |s|
  {
    if |s| > 0 {
      SplitLength(s[1..], sep);
      assert s == [s[0]] + s[1..];
      assert multiset(s) == multiset{s[0]} + multiset(s[1..]);
    }
  }

  /** `s.split(sep, 1)`: the text before the first `sep` and the text after it, or `[s]` if there is none. */
  function SplitOnce(s: String, sep: char): (r: seq<String>)
    ensures sep !in s ==> r == [s]
    ensures sep in s ==> |r| == 2 && sep !in r[0] && s == r[0] + [sep] + r[1]
  {
    if s == [] then [s]
    else if s[0] == sep then
      assert s == [] + [sep] + s[1..];
      [[], s[1..]]
    else
      var rest := SplitOnce(s[1..], sep);
      assert s == [s[0]] + s[1..];
      [[s[0]] + rest[0]] + rest[1..]
  }

  /** `sep.join(parts)` */
  function Join(parts: seq<String>, sep: String): String {
    if |parts| == 0 then []
    else if |parts| == 1 then parts[0]
    else parts[0] + sep + Join(parts[1..], sep)
  }

  /** Joining the pieces of a split with the separator gives back the original text. */
  lemma {:induction false} JoinSplit(s: String, sep: char)
    ensures Join(Split(s, sep), [sep]) == s
    decreases |s|
  {
    if s != [] {
      var rest := Split(s[1..], sep);
      JoinSplit(s[1..], sep);
      assert s == [s[0]] + s[1..];
      if s[0] == sep {
        assert Split(s, sep) == [[]] + rest;
        JoinCons([], rest, [sep]);
      } else {
        assert Split(s, sep) == [[s[0]] + rest[0]] + rest[1..];
        JoinCons([s[0]] + rest[0], rest[1..], [sep]);
        JoinCons(rest[0], rest[1..], [sep]);
        assert rest == [rest[0]] + rest[1..];
      }
    }
  }

  /** Joining `[p] + ps` puts `p` in front of the join of `ps`, with a separator when `ps` is not empty. */
  lemma JoinCons(p: String, ps: seq<String>, sep: String)
    ensures Join([p] + ps, sep) == if ps == [] then p else p + sep + Join(ps, sep)
  {
    assert ([p] + ps)[1..] == ps;
  }

  /** Splitting text that starts with a separator-free piece `a` glues `a` onto the first piece. */
  lemma {:induction false} SplitPrefix(a: String, t: String, sep: char)
    requires sep !in a
    ensures Split(a + t, sep) == [a + Split(t, sep)[0]] + Split(t, sep)[1..]
    decreases |a|
  {
    var st := Split(t, sep);
    if a == [] {
      assert a + t == t;
      assert a + st[0] == st[0];
      assert st == [st[0]] + st[1..];
    } else {
      assert (a + t)[1..] == a[1..] + t;
      assert (a + t)[0] == a[0];
      SplitPrefix(a[1..], t, sep);
      var rest := Split(a[1..] + t, sep);
      assert rest == [a[1..] + st[0]] + st[1..];
      assert Split(a + t, sep) == [[a[0]] + rest[0]] + rest[1..];
      assert [a[0]] + (a[1..] + st[0]) == a + st[0];
    }
  }

  /** Splitting a join of separator-free pieces gives back the pieces. */
  lemma {:induction false} SplitJoin(parts: seq<String>, sep: char)
    requires |parts| >= 1
    requires forall i :: 0 <= i < |parts| ==> sep !in parts[i]
    ensures Split(Join(parts, [sep]), sep) == parts
  {
    var p0 := parts[0];
    if |parts| == 1 {
      SplitPrefix(p0, [], sep);
      assert p0 + [] == p0;
      assert Split([], sep) == [[]];
    } else {
      var tail := Join(parts[1..], [sep]);
      SplitJoin(parts[1..], sep);
      assert Join(parts, [sep]) == p0 + ([sep] + tail);
      SplitPrefix(p0, [sep] + tail, sep);
      assert ([sep] + tail)[1..] == tail;
      var st := Split([sep] + tail, sep);
      assert st == [[]] + Split(tail, sep);
      assert st[0] == [] && st[1..] == parts[1..];
      assert p0 + [] == p0;
      assert parts == [p0] + parts[1..];
    }
  }

  /** Every piece of a split is made of characters of the text. */
  lemma {:induction false} SplitChars(s: String, sep: char)
    ensures forall i, c :: 0 <= i < |Split(s, sep)| && c in Split(s, sep)[i] ==> c in s
    decreases |s|
  {
    if s != [] {
      SplitChars(s[1..], sep);
      assert forall c :: c in s[1..] ==> c in s;
    }
  }

  /** A character in none of the pieces and not in the separator is not in their join. */
  lemma {:induction false} JoinAvoids(parts: seq<String>, sep: String, c: char)
    requires c !in sep && forall i :: 0 <= i < |parts| ==> c !in parts[i]
    ensures c !in Join(parts, sep)
    decreases |parts|
  {
    if |parts| > 1 {
      JoinAvoids(parts[1..], sep, c);
    }
  }

  /** The lower-case form of an ASCII letter; every other character is unchanged. */
  function LowerChar(c: char): char {
    if 'A' <= c <= 'Z' then (c as int + 32) as char else c
  }

  /** `s.lower()` on ASCII letters. */
  function Lower(s: String): String {
    seq(|s|, i requires 0 <= i < |s| => LowerChar(s[i]))
  }

  /** For an all-lower-case ASCII word `w`, `Lower(s) == w` holds exactly when `s` spells `w` in any mix of cases. */
  lemma LowerEqualsIff(s: String, w: String)
    requires forall i :: 0 <= i < |w| ==> 'a' <= w[i] <= 'z'
    ensures Lower(s) == w <==>
      |s| == |w| && forall i :: 0 <= i < |s| ==> s[i] == w[i] || s[i] as int == w[i] as int - 32
  {
    if |s| == |w| && forall i :: 0 <= i < |s| ==> s[i] == w[i] || s[i] as int == w[i] as int - 32 {
      assert forall i :: 0 <= i < |s| ==> Lower(s)[i] == w[i];
    }
  }

  predicate IsDigit(c: char) {
    '0' <= c <= '9'
  }

  predicate IsDigits(s: String) {
    |s| > 0 && forall i :: 0 <= i < |s| ==> IsDigit(s[i])
  }

  function DigitChar(d: nat): (c: char)
    requires d < 10
    ensures IsDigit(c) && c as int - '0' as int == d
  {
    ('0' as int + d) as char
  }

  /** The value of a string of decimal digits. */
  function DigitsValue(s: String): nat
    requires forall i :: 0 <= i < |s| ==> IsDigit(s[i])
  {
    if s == [] then 0
    else
      assert IsDigit(s[|s| - 1]);
      10 * DigitsValue(s[..|s| - 1]) + (s[|s| - 1] as int - '0' as int)
  }

  /** `str(n)` for a non-negative integer. */
  function NatToString(n: nat): (r: String)
    ensures IsDigits(r)
  {
    if n < 10 then [DigitChar(n)] else NatToString(n / 10) + [DigitChar(n % 10)]
  }

  /** `str(i)`: decimal digits with a leading `-` for negative numbers. */
  function IntToString(i: int): String {
    if i < 0 then "-" + NatToString(-i) else NatToString(i)
  }

  /** `int(s)` for a decimal numeral with an optional sign; `None` where Python raises `ValueError`. */
  function ParseInt(s: String): Option<int> {
    if |s| > 1 && s[0] == '-' && IsDigits(s[1..]) then Some(0 - DigitsValue(s[1..]))
    else if |s| > 1 && s[0] == '+' && IsDigits(s[1..]) then Some(DigitsValue(s[1..]))
    else if IsDigits(s) then Some(DigitsValue(s))
    else None
  }

  lemma {:induction false} DigitsValueOfString(n: nat)
    ensures DigitsValue(NatToString(n)) == n
  {
    if n >= 10 {
      DigitsValueOfString(n / 10);
      var s := NatToString(n);
      assert s[..|s| - 1] == NatToString(n / 10);
    }
  }

  /** Reading back the decimal text of an integer gives the integer. */
  lemma ParseIntToString(i: int)
    ensures ParseInt(IntToString(i)) == Some(i)
  {
    var a := if i < 0 then -i else i;
    DigitsValueOfString(a);
    if i < 0 {
      assert IntToString(i)[1..] == NatToString(a);
    }
  }
}
