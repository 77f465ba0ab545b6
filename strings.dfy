/** The few Python `str` operations and regular-expression conventions the
    exporter relies on, each with the contract Python gives it. */
module Strings {
  import opened Wrappers

  /** `str.isspace()` of one character: the ASCII and Unicode white space Python strips. */
  predicate IsSpace(c: char) {
    c == ' ' || c == '\t' || c == '\n' || c == '\r' || c == '\U{000B}' || c == '\U{000C}'
    || ('\U{001C}' <= c <= '\U{001F}') || c == '\U{0085}' || c == '\U{00A0}'
    || c == '\U{1680}' || ('\U{2000}' <= c <= '\U{200A}') || c == '\U{2028}' || c == '\U{2029}'
    || c == '\U{202F}' || c == '\U{205F}' || c == '\U{3000}'
  }

  predicate AllSpace(s: string) {
    forall k :: 0 <= k < |s| ==> IsSpace(s[k])
  }

  /** Number of white-space characters at the start of `s`. */
  function LeadingSpaces(s: string): (n: nat)
    ensures n <= |s| && AllSpace(s[..n]) && (n < |s| ==> !IsSpace(s[n]))
  {
    if s == [] || !IsSpace(s[0]) then 0
    else
      var n := 1 + LeadingSpaces(s[1..]);
      assert s[..n] == [s[0]] + s[1..][..n - 1];
      n
  }

  /** Number of white-space characters at the end of `s`. */
  function TrailingSpaces(s: string): (n: nat)
    ensures n <= |s| && AllSpace(s[|s| - n..]) && (n < |s| ==> !IsSpace(s[|s| - n - 1]))
    ensures s != [] && !IsSpace(s[0]) ==> n < |s|
  {
    if s == [] || !IsSpace(s[|s| - 1]) then 0
    else
      var init := s[..|s| - 1];
      var n := 1 + TrailingSpaces(init);
      assert s[|s| - n..] == init[|init| - (n - 1)..] + [s[|s| - 1]];
      assert init != [] ==> init[0] == s[0];
      n
  }

  /** `r` is `s` with its leading and trailing white space removed, and nothing else. */
  predicate IsStripped(r: string, s: string) {
    exists a, b | 0 <= a <= b <= |s| ::
      r == s[a..b] && AllSpace(s[..a]) && AllSpace(s[b..])
      && (r != [] ==> !IsSpace(r[0]) && !IsSpace(r[|r| - 1]))
  }

  /** `str.strip()`. */
  function Strip(s: string): (r: string)
    ensures IsStripped(r, s)
  {
    var a := LeadingSpaces(s);
    var rest := s[a..];
    var t := TrailingSpaces(rest);
    var b := a + |rest| - t;
    var r := s[a..b];
    assert r == rest[..|rest| - t];
    assert s[b..] == rest[|rest| - t..];
    assert r != [] ==> r[0] == s[a] && r[|r| - 1] == rest[|rest| - t - 1];
    r
  }

  predicate StartsWith(s: string, prefix: string) {
    |prefix| <= |s| && s[..|prefix|] == prefix
  }

  predicate EndsWith(s: string, suffix: string) {
    |suffix| <= |s| && s[|s| - |suffix|..] == suffix
  }

  /** `sep.join(parts)`. */
  function Join(sep: string, parts: seq<string>): string {
    if |parts| == 0 then ""
    else if |parts| == 1 then parts[0]
    else parts[0] + sep + Join(sep, parts[1..])
  }

  /** Position of the first occurrence of `c` in `s`. */
  function IndexOfChar(s: string, c: char): (k: nat)
    requires c in s
    ensures k < |s| && s[k] == c && c !in s[..k]
  {
    if s[0] == c then 0
    else
      var k := 1 + IndexOfChar(s[1..], c);
      assert s[..k] == [s[0]] + s[1..][..k - 1];
      k
  }

  /** `s.split(c)` for a one-character separator: every occurrence splits. */
  function Split(s: string, c: char): (parts: seq<string>)
    ensures |parts| > 0
    ensures forall k :: 0 <= k < |parts| ==> c !in parts[k]
    decreases |s|
  {
    if c !in s then [s]
    else
      var k := IndexOfChar(s, c);
      [s[..k]] + Split(s[k + 1..], c)
  }

  /** Joining the pieces of a split with the same separator gives back the string. */
  lemma {:induction false} JoinSplit(s: string, c: char)
    ensures Join([c], Split(s, c)) == s
    decreases |s|
  {
    if c in s {
      var k := IndexOfChar(s, c);
      JoinSplit(s[k + 1..], c);
      assert s == s[..k] + [c] + s[k + 1..];
    }
  }

  /** `s` with every `sep` replaced by `rep`: what `Join(rep, Split(s, sep))` computes. */
  function ReplaceChar(s: string, sep: char, rep: string): (r: string)
    ensures sep !in rep ==> sep !in r
  {
    if s == [] then []
    else (if s[0] == sep then rep else [s[0]]) + ReplaceChar(s[1..], sep, rep)
  }

  /** Splitting at a character and joining with another string replaces the character. */
  lemma {:induction false} JoinSplitReplaces(s: string, c: char, rep: string)
    ensures Join(rep, Split(s, c)) == ReplaceChar(s, c, rep)
    decreases |s|
  {
    if c !in s {
      NoCharUnchanged(s, c, rep);
    } else {
      var k := IndexOfChar(s, c);
      var head, rest := s[..k], s[k + 1..];
      var parts := Split(rest, c);
      assert s == head + ([c] + rest);
      assert Split(s, c) == [head] + parts;
      calc {
        Join(rep, Split(s, c));
        Join(rep, [head] + parts);
        { JoinCons(rep, head, parts); }
        head + rep + Join(rep, parts);
        { JoinSplitReplaces(rest, c, rep); }
        head + rep + ReplaceChar(rest, c, rep);
        { NoCharUnchanged(head, c, rep); ReplaceCharCons(c, rest, rep); }
        ReplaceChar(head, c, rep) + ReplaceChar([c] + rest, c, rep);
        { ReplaceCharAppend(head, [c] + rest, c, rep); }
        ReplaceChar(s, c, rep);
      }
    }
  }

  lemma ReplaceCharCons(c: char, rest: string, rep: string)
    ensures ReplaceChar([c] + rest, c, rep) == rep + ReplaceChar(rest, c, rep)
  {
    assert ([c] + rest)[1..] == rest;
  }

  lemma JoinCons(sep: string, head: string, parts: seq<string>)
    requires |parts| > 0
    ensures Join(sep, [head] + parts) == head + sep + Join(sep, parts)
  {
    assert ([head] + parts)[1..] == parts;
  }

  lemma {:induction false} JoinSnoc(sep: string, parts: seq<string>, x: string)
    requires |parts| > 0
    ensures Join(sep, parts + [x]) == Join(sep, parts) + sep + x
    decreases |parts|
  {
    if |parts| == 1 {
      assert parts + [x] == [parts[0], x];
      assert [parts[0], x][1..] == [x];
    } else {
      assert (parts + [x])[1..] == parts[1..] + [x];
      JoinSnoc(sep, parts[1..], x);
    }
  }

  /** `''.join(f(x) for x in xs)`. */
  function Concat<T>(xs: seq<T>, f: T -> string): string {
    if xs == [] then "" else Concat(xs[..|xs| - 1], f) + f(xs[|xs| - 1])
  }

  /** Concatenating two runs is concatenating their concatenations. */
  lemma {:induction false} ConcatAppend<T>(a: seq<T>, b: seq<T>, f: T -> string)
    ensures Concat(a + b, f) == Concat(a, f) + Concat(b, f)
    decreases |b|
  {
    if b == [] {
      assert a + b == a;
    } else {
      assert (a + b)[..|a + b| - 1] == a + b[..|b| - 1];
      ConcatAppend(a, b[..|b| - 1], f);
    }
  }

  /** The pieces of one more element of xs. */
  lemma ConcatPrefixSnoc<T>(xs: seq<T>, f: T -> string, j: nat)
    requires j < |xs|
    ensures Concat(xs[..j + 1], f) == Concat(xs[..j], f) + f(xs[j])
  {
    assert xs[..j + 1][..j] == xs[..j];
  }

  /** A slice of the middle of p + m + q is that slice of m. */
  lemma InnerSlice(p: string, m: string, q: string, i: nat, j: nat)
    requires i <= j <= |m|
    ensures |p| + j <= |p + m + q| && (p + m + q)[|p| + i..|p| + j] == m[i..j]
  {
    var s := p + m + q;
    forall k | 0 <= k < j - i ensures s[|p| + i..|p| + j][k] == m[i..j][k] {
      assert s[|p| + i + k] == (p + m)[|p| + i + k] == m[i + k];
    }
  }

  /** Each element contributes its own piece, at the offset of the pieces before it. */
  lemma ConcatAt<T>(xs: seq<T>, f: T -> string, k: nat)
    requires k < |xs|
    ensures var pre := Concat(xs[..k], f);
      |pre| + |f(xs[k])| <= |Concat(xs, f)|
      && Concat(xs, f)[|pre|..|pre| + |f(xs[k])|] == f(xs[k])
  {
    assert xs == xs[..k] + [xs[k]] + xs[k + 1..];
    ConcatAppend(xs[..k] + [xs[k]], xs[k + 1..], f);
    ConcatAppend(xs[..k], [xs[k]], f);
    assert [xs[k]][..0] == [];
  }

  /** The lines of `xs`, each preceded by the header of its key when it is the first
      element or its key differs from the previous element's. */
  function Breaks<T, K(==)>(xs: seq<T>, key: T -> K, header: K -> string, line: T -> string): string {
    if xs == [] then ""
    else
      var n := |xs| - 1;
      Breaks(xs[..n], key, header, line)
      + (if n == 0 || key(xs[n]) != key(xs[n - 1]) then header(key(xs[n])) else "")
      + line(xs[n])
  }

  /** One more element adds its header when its key changes, then its line. */
  lemma BreaksSnoc<T, K>(xs: seq<T>, n: nat, key: T -> K, header: K -> string, line: T -> string)
    requires n < |xs|
    ensures Breaks(xs[..n + 1], key, header, line) == Breaks(xs[..n], key, header, line)
      + (if n == 0 || key(xs[n]) != key(xs[n - 1]) then header(key(xs[n])) else "") + line(xs[n])
  {
    assert xs[..n + 1][..n] == xs[..n];
  }

  /** The text opens with the header of the first element's key. */
  lemma {:induction false} BreaksStart<T, K>(xs: seq<T>, key: T -> K, header: K -> string, line: T -> string)
    requires xs != []
    ensures StartsWith(Breaks(xs, key, header, line), header(key(xs[0])))
  {
    var n := |xs| - 1;
    if n > 0 {
      assert xs[..n][0] == xs[0];
      BreaksStart(xs[..n], key, header, line);
    } else {
      assert xs[..0] == [];
    }
  }

  /** A run whose first key differs from the last key before it reads as a text of its
      own. */
  lemma {:induction false} BreaksNewRun<T, K>(a: seq<T>, b: seq<T>, key: T -> K, header: K -> string, line: T -> string)
    requires a != [] && b != [] && key(a[|a| - 1]) != key(b[0])
    ensures Breaks(a + b, key, header, line) == Breaks(a, key, header, line) + Breaks(b, key, header, line)
    decreases |b|
  {
    var ab := a + b;
    var n := |ab| - 1;
    var init := b[..|b| - 1];
    var last := b[|b| - 1];
    var head := if |b| == 1 || key(last) != key(b[|b| - 2]) then header(key(last)) else "";
    calc {
      Breaks(ab, key, header, line);
      == { assert ab[..n] == a + init && ab[n] == last;
           assert ab[n - 1] == (if |b| == 1 then a[|a| - 1] else b[|b| - 2]); }
      Breaks(a + init, key, header, line) + head + line(last);
      == { if |b| == 1 {
             assert a + init == a && init == [];
           } else {
             assert init[0] == b[0];
             BreaksNewRun(a, init, key, header, line);
           } }
      Breaks(a, key, header, line) + Breaks(init, key, header, line) + head + line(last);
      == { assert b[..|b| - 1] == init; }
      Breaks(a, key, header, line) + Breaks(b, key, header, line);
    }
  }

  /** Elements that keep the last key before them add their lines and no header. */
  lemma {:induction false} BreaksSameRun<T, K>(a: seq<T>, b: seq<T>, key: T -> K, header: K -> string, line: T -> string)
    requires a != [] && forall k :: 0 <= k < |b| ==> key(b[k]) == key(a[|a| - 1])
    ensures Breaks(a + b, key, header, line) == Breaks(a, key, header, line) + Concat(b, line)
    decreases |b|
  {
    if b == [] {
      assert a + b == a;
    } else {
      var ab := a + b;
      var n := |ab| - 1;
      var init := b[..|b| - 1];
      var last := b[|b| - 1];
      calc {
        Breaks(ab, key, header, line);
        == { assert ab[..n] == a + init && ab[n] == last;
             assert ab[n - 1] == (if |b| == 1 then a[|a| - 1] else b[|b| - 2]); }
        Breaks(a + init, key, header, line) + line(last);
        == { BreaksSameRun(a, init, key, header, line); }
        Breaks(a, key, header, line) + Concat(init, line) + line(last);
        ==
        Breaks(a, key, header, line) + Concat(b, line);
      }
    }
  }

  lemma {:induction false} NoCharUnchanged(s: string, c: char, rep: string)
    requires c !in s
    ensures ReplaceChar(s, c, rep) == s
  {
    if s != [] {
      NoCharUnchanged(s[1..], c, rep);
    }
  }

  lemma {:induction false} ReplaceCharAppend(a: string, b: string, c: char, rep: string)
    ensures ReplaceChar(a + b, c, rep) == ReplaceChar(a, c, rep) + ReplaceChar(b, c, rep)
  {
    if a == [] {
      assert a + b == b;
    } else {
      var head := if a[0] == c then rep else [a[0]];
      calc {
        ReplaceChar(a + b, c, rep);
        == { assert (a + b)[0] == a[0] && (a + b)[1..] == a[1..] + b; }
        head + ReplaceChar(a[1..] + b, c, rep);
        == { ReplaceCharAppend(a[1..], b, c, rep); }
        head + (ReplaceChar(a[1..], c, rep) + ReplaceChar(b, c, rep));
        ==
        ReplaceChar(a, c, rep) + ReplaceChar(b, c, rep);
      }
    }
  }

  /** `s.replace(pattern, rep)`: non-overlapping occurrences, scanned left to right. */
  function Replace(s: string, pattern: string, rep: string): string
    requires |pattern| > 0
    decreases |s|
  {
    if s == [] then []
    else if StartsWith(s, pattern) then rep + Replace(s[|pattern|..], pattern, rep)
    else [s[0]] + Replace(s[1..], pattern, rep)
  }

  /** The device's escaping of an element id: every '.' is stored as the two characters `\.`. */
  function EscapeDots(s: string): (r: string)
    ensures r != [] ==> r[0] != '.'
    ensures |r| >= |s|
  {
    if s == [] then []
    else (if s[0] == '.' then "\\." else [s[0]]) + EscapeDots(s[1..])
  }

  /** `id.replace('\.', '.')` as kobo.py:210 writes it. */
  function UnescapeDots(s: string): string {
    Replace(s, "\\.", ".")
  }

  /** Unescaping undoes the device's escaping, whatever backslashes the id already holds. */
  lemma {:induction false} UnescapeEscape(s: string)
    ensures UnescapeDots(EscapeDots(s)) == s
  {
    if s != [] {
      var rest := EscapeDots(s[1..]);
      UnescapeEscape(s[1..]);
      if s[0] == '.' {
        assert EscapeDots(s) == "\\." + rest;
        assert StartsWith("\\." + rest, "\\.");
        assert ("\\." + rest)[2..] == rest;
      } else {
        var e := [s[0]] + rest;
        assert EscapeDots(s) == e;
        assert !StartsWith(e, "\\.") by {
          assert rest != [] ==> e[1] == rest[0];
          assert |e| < 2 || e[1] != '.';
        }
        assert e[1..] == rest;
      }
    }
  }

  /** The part of `s` a Python regular expression anchored with `^...$` can cover when
      its wildcards are `.`: `.` never matches a newline, and `$` matches at the very end
      or just before one final newline. None when another newline makes every match fail. */
  function RegexLine(s: string): (r: Option<string>)
    ensures r.Some? ==> '\n' !in r.value
    ensures '\n' !in s ==> r == Some(s)
    ensures r.Some? ==> s == r.value || s == r.value + "\n"
  {
    if '\n' !in s then Some(s)
    else if s[|s| - 1] == '\n' && '\n' !in s[..|s| - 1] then
      assert s == s[..|s| - 1] + "\n";
      Some(s[..|s| - 1])
    else None
  }

  /** Decimal digits of a natural number, as `str(n)` prints it. */
  function NatToString(n: nat): (r: string)
    ensures |r| > 0 && forall k :: 0 <= k < |r| ==> '0' <= r[k] <= '9'
    ensures n >= 10 <==> |r| > 1
    decreases n
  {
    if n < 10 then [Digit(n)]
    else NatToString(n / 10) + [Digit(n % 10)]
  }

  function Digit(d: nat): (c: char)
    requires d < 10
    ensures '0' <= c <= '9'
  {
    ['0', '1', '2', '3', '4', '5', '6', '7', '8', '9'][d]
  }

  function DigitValue(c: char): nat {
    if '0' <= c <= '9' then (c as int - '0' as int) as nat else 0
  }

  lemma DigitValueOf(k: nat)
    requires k < 10
    ensures DigitValue(Digit(k)) == k
  {
  }

  /** Reads a string of decimal digits back as a number. */
  function ParseNat(s: string): nat {
    if s == [] then 0 else 10 * ParseNat(s[..|s| - 1]) + DigitValue(s[|s| - 1])
  }

  /** The decimal rendering is read back to the same number, so it is injective. */
  lemma {:induction false} ParseNatToString(n: nat)
    ensures ParseNat(NatToString(n)) == n
    decreases n
  {
    if n >= 10 {
      var q, r := n / 10, n % 10;
      ParseNatToString(q);
      DigitValueOf(r);
      var s := NatToString(q) + [Digit(r)];
      assert s[..|s| - 1] == NatToString(q);
      assert ParseNat(s) == 10 * q + r;
    }
  }

  lemma NatToStringInjective(m: nat, n: nat)
    requires NatToString(m) == NatToString(n)
    ensures m == n
  {
    ParseNatToString(m);
    ParseNatToString(n);
  }
}
