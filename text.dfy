/**
 * The few JavaScript string operations the catalog relies on, with the
 * semantics of ECMAScript: `split` on a one-character separator, `trim`,
 * `toLowerCase` (restricted to ASCII letters), `indexOf`, `join` and
 * `startsWith`.
 */
module Text {

  /** WhiteSpace and LineTerminator code points, which `String.prototype.trim` removes
      (ECMAScript 2023, sections 12.2 and 12.3). */
  predicate IsSpace(c: char) {
    || c == '\t' || c == '\n' || c == '\U{000B}' || c == '\U{000C}' || c == '\r'
    || c == ' ' || c == '\U{00A0}' || c == '\U{1680}'
    || ('\U{2000}' <= c <= '\U{200A}')
    || c == '\U{2028}' || c == '\U{2029}' || c == '\U{202F}' || c == '\U{205F}'
    || c == '\U{3000}' || c == '\U{FEFF}'
  }

  predicate AllSpace(s: string) {
    forall i :: 0 <= i < |s| ==> IsSpace(s[i])
  }

  /** `s.trimStart()` */
  function TrimStart(s: string): (r: string)
    ensures |r| <= |s| && r == s[|s| - |r|..]
    ensures AllSpace(s[..|s| - |r|])
    ensures r == [] || !IsSpace(r[0])
  {
    if s != [] && IsSpace(s[0]) then TrimStart(s[1..]) else s
  }

  /** `s.trimEnd()` */
  function TrimEnd(s: string): (r: string)
    ensures |r| <= |s| && r == s[..|r|]
    ensures AllSpace(s[|r|..])
    ensures r == [] || !IsSpace(r[|r| - 1])
  {
    if s != [] && IsSpace(s[|s| - 1]) then TrimEnd(s[..|s| - 1]) else s
  }

  /** `s.trim()` */
  function Trim(s: string): string {
    TrimEnd(TrimStart(s))
  }

  /** `s.split(sep)` for a one-character separator: the maximal runs between separators,
      including the empty ones at either end. */
  function Split(s: string, sep: char): (parts: seq<string>)
    ensures |parts| >= 1
  {
    if s == [] then [""]
    else
      var rest := Split(s[1..], sep);
      if s[0] == sep then [""] + rest else [[s[0]] + rest[0]] + rest[1..]
  }

  /** `parts.join(sep)` */
  function Join(parts: seq<string>, sep: string): string {
    if |parts| == 0 then ""
    else if |parts| == 1 then parts[0]
    else parts[0] + sep + Join(parts[1..], sep)
  }

  /** `s.indexOf(c)`: the first position of `c`, or -1. */
  function IndexOf(s: string, c: char): (i: int)
    ensures -1 <= i < |s|
    ensures i == -1 <==> c !in s
    ensures 0 <= i ==> s[i] == c && c !in s[..i]
  {
    if s == [] then -1
    else if s[0] == c then 0
    else
      var j := IndexOf(s[1..], c);
      assert s[1..][..if j < 0 then 0 else j] == s[1..if j < 0 then 1 else j + 1];
      if j < 0 then -1 else j + 1
  }

  /** indexOf finds the first occurrence: the one with none before it. */
  lemma {:induction false} IndexOfFirst(s: string, c: char, i: nat)
    requires i < |s| && s[i] == c && c !in s[..i]
    ensures IndexOf(s, c) == i
  {
    if s[0] != c {
      assert s[0] in s[..i];
      assert s[1..][..i - 1] == s[1..i];
      IndexOfFirst(s[1..], c, i - 1);
    }
  }

  function LowerChar(c: char): char {
    if 'A' <= c <= 'Z' then (c as int + 32) as char else c
  }

  /** `s.toLowerCase()` on ASCII letters; every other character is kept. */
  function Lower(s: string): (r: string)
    ensures |r| == |s|
    ensures forall i :: 0 <= i < |s| ==> r[i] == LowerChar(s[i])
  {
    seq(|s|, i requires 0 <= i < |s| => LowerChar(s[i]))
  }

  /** `s.toUpperCase()` on ASCII letters; every other character is kept. */
  function UpperChar(c: char): char {
    if 'a' <= c <= 'z' then (c as int - 32) as char else c
  }

  function Upper(s: string): (r: string)
    ensures |r| == |s|
    ensures forall i :: 0 <= i < |s| ==> r[i] == UpperChar(s[i])
  {
    seq(|s|, i requires 0 <= i < |s| => UpperChar(s[i]))
  }

  /** The decimal digit of `i`, so that `kw + [Digit(i)]` is JavaScript's `kw + i`. */
  function Digit(i: nat): char
    requires i <= 9
  {
    ('0' as int + i) as char
  }

  predicate IsDigits(s: string) {
    forall i :: 0 <= i < |s| ==> '0' <= s[i] <= '9'
  }

  /** A number as a template literal writes it: `${n}`. */
  function NatStr(n: nat): (s: string)
    ensures |s| >= 1 && IsDigits(s)
    ensures |s| > 1 ==> s[0] != '0'
  {
    if n < 10 then [Digit(n)] else NatStr(n / 10) + [Digit(n % 10)]
  }

  /** The number a string of decimal digits denotes. */
  function DigitsValue(s: string): nat
    requires IsDigits(s)
  {
    if s == [] then 0 else DigitsValue(s[..|s| - 1]) * 10 + (s[|s| - 1] as int - '0' as int)
  }

  /** Reading back a rendered number gives the number. */
  lemma {:induction false} NatStrValue(n: nat)
    ensures DigitsValue(NatStr(n)) == n
  {
    if n >= 10 {
      NatStrValue(n / 10);
      var s := NatStr(n);
      assert s[..|s| - 1] == NatStr(n / 10);
    }
  }

  predicate StartsWith(s: string, prefix: string) {
    |prefix| <= |s| && s[..|prefix|] == prefix
  }

  /** `pieces.filter(Boolean)`: the non-empty pieces, in order. */
  function NonEmpty(pieces: seq<string>): (r: seq<string>)
    ensures forall p <- r :: p != "" && p in pieces
  {
    if pieces == [] then []
    else (if pieces[0] == "" then [] else [pieces[0]]) + NonEmpty(pieces[1..])
  }

  // ---------------------------------------------------------------------------
  // Facts about Split and Join

  /** No piece of a split holds the separator. */
  lemma {:induction false} SplitPiecesFree(s: string, sep: char)
    ensures forall i :: 0 <= i < |Split(s, sep)| ==> sep !in Split(s, sep)[i]
  {
    if s != [] {
      SplitPiecesFree(s[1..], sep);
      var rest := Split(s[1..], sep);
      var parts := Split(s, sep);
      if s[0] == sep {
        forall i | 1 <= i < |parts| ensures sep !in parts[i] {
          assert parts[i] == rest[i - 1];
        }
      } else {
        assert parts[0] == [s[0]] + rest[0];
        forall i | 1 <= i < |parts| ensures sep !in parts[i] {
          assert parts[i] == rest[i];
        }
      }
    }
  }

  /** Joining the pieces of a split with the separator gives back the string. */
  lemma {:induction false} JoinSplit(s: string, sep: char)
    ensures Join(Split(s, sep), [sep]) == s
  {
    if s != [] {
      var rest := Split(s[1..], sep);
      JoinSplit(s[1..], sep);
      if s[0] == sep {
        assert Split(s, sep) == [""] + rest;
        assert Join([""] + rest, [sep]) == "" + [sep] + Join(rest, [sep]);
        assert s == [s[0]] + s[1..];
      } else {
        var parts := [[s[0]] + rest[0]] + rest[1..];
        assert Split(s, sep) == parts;
        JoinConsFirst(rest, [s[0]], [sep]);
        assert s == [s[0]] + s[1..];
      }
    }
  }

  /** Prefixing the first piece prefixes the join. */
  lemma {:induction false} JoinConsFirst(parts: seq<string>, pre: string, sep: string)
    requires |parts| >= 1
    ensures Join([pre + parts[0]] + parts[1..], sep) == pre + Join(parts, sep)
  {
    var q := [pre + parts[0]] + parts[1..];
    assert q[0] == pre + parts[0];
    assert q[1..] == parts[1..];
    if |parts| > 1 {
      assert Join(q, sep) == (pre + parts[0]) + sep + Join(parts[1..], sep);
      assert Join(parts, sep) == parts[0] + sep + Join(parts[1..], sep);
      assert (pre + parts[0]) + sep + Join(parts[1..], sep) == pre + (parts[0] + sep + Join(parts[1..], sep));
    }
  }

  /** Splitting a join gives back the pieces when no piece holds the separator. */
  lemma {:induction false} SplitJoin(parts: seq<string>, sep: char)
    requires |parts| >= 1
    requires forall i :: 0 <= i < |parts| ==> sep !in parts[i]
    ensures Split(Join(parts, [sep]), sep) == parts
  {
    if |parts| == 1 {
      SplitFree(parts[0], sep);
      assert parts == [parts[0]];
    } else {
      SplitJoin(parts[1..], sep);
      var tail := Join(parts[1..], [sep]);
      assert sep !in parts[0];
      SplitPrefixFree(parts[0], [sep] + tail, sep);
      assert ([sep] + tail)[0] == sep;
      assert ([sep] + tail)[1..] == tail;
      assert Split([sep] + tail, sep) == [""] + parts[1..];
      assert Join(parts, [sep]) == parts[0] + [sep] + tail;
      assert parts[0] + [sep] + tail == parts[0] + ([sep] + tail);
      assert parts[0] + "" == parts[0];
      assert parts == [parts[0]] + parts[1..];
    }
  }

  /** A string without the separator splits into itself. */
  lemma {:induction false} SplitFree(s: string, sep: char)
    requires sep !in s
    ensures Split(s, sep) == [s]
  {
    if s != [] {
      SplitFree(s[1..], sep);
      assert [s[0]] + s[1..] == s;
    }
  }

  /** A separator-free prefix is glued to the first piece. */
  lemma {:induction false} SplitPrefixFree(a: string, b: string, sep: char)
    requires sep !in a
    ensures Split(a + b, sep) == [a + Split(b, sep)[0]] + Split(b, sep)[1..]
  {
    var sb := Split(b, sep);
    if a == [] {
      assert a + b == b;
      assert a + sb[0] == sb[0];
      assert sb == [sb[0]] + sb[1..];
    } else {
      SplitPrefixFree(a[1..], b, sep);
      assert (a + b)[0] == a[0] && a[0] != sep;
      assert (a + b)[1..] == a[1..] + b;
      var r := Split(a[1..] + b, sep);
      assert r == [a[1..] + sb[0]] + sb[1..];
      assert Split(a + b, sep) == [[a[0]] + r[0]] + r[1..];
      assert [a[0]] + (a[1..] + sb[0]) == a + sb[0];
    }
  }

  /** `p` with `b` appended to its last piece. */
  function ExtendLast(p: seq<string>, b: string): seq<string>
    requires |p| >= 1
  {
    p[..|p| - 1] + [p[|p| - 1] + b]
  }

  lemma ExtendLastCons(h: string, r: seq<string>, b: string)
    requires |r| >= 1
    ensures ExtendLast([h] + r, b) == [h] + ExtendLast(r, b)
  {
    assert ([h] + r)[..|r|] == [h] + r[..|r| - 1];
  }

  lemma ExtendLastNewHead(h: string, r: seq<string>, b: string)
    requires |r| >= 2
    ensures ExtendLast(r, b)[0] == r[0]
    ensures ExtendLast([h] + r[1..], b) == [h] + ExtendLast(r, b)[1..]
  {
    assert ExtendLast(r, b)[1..] == r[1..|r| - 1] + [r[|r| - 1] + b];
    assert ([h] + r[1..])[..|r| - 1] == [h] + r[1..|r| - 1];
  }

  lemma SplitCons(c: char, a: string, sep: char)
    ensures Split([c] + a, sep) ==
              if c == sep then [""] + Split(a, sep)
              else [[c] + Split(a, sep)[0]] + Split(a, sep)[1..]
  {
    assert ([c] + a)[1..] == a;
  }

  /** A separator-free suffix is glued to the last piece. */
  lemma {:induction false} SplitSuffixFree(a: string, b: string, sep: char)
    requires sep !in b
    ensures Split(a + b, sep) == ExtendLast(Split(a, sep), b)
  {
    if a == [] {
      SplitFree(b, sep);
      assert a + b == b;
    } else {
      var c := a[0];
      var t := a[1..];
      assert a == [c] + t;
      assert a + b == [c] + (t + b);
      SplitSuffixFree(t, b, sep);
      SplitCons(c, t, sep);
      SplitCons(c, t + b, sep);
      var rest := Split(t, sep);
      if c == sep {
        ExtendLastCons("", rest, b);
      } else if |rest| == 1 {
        assert [c] + (rest[0] + b) == ([c] + rest[0]) + b;
      } else {
        ExtendLastNewHead([c] + rest[0], rest, b);
      }
    }
  }

  // ---------------------------------------------------------------------------
  // Facts about Trim

  lemma {:induction false} TrimStartSpaces(w: string, y: string)
    requires AllSpace(w)
    ensures TrimStart(w + y) == TrimStart(y)
  {
    if w != [] {
      assert (w + y)[0] == w[0] && IsSpace(w[0]);
      assert (w + y)[1..] == w[1..] + y;
      assert AllSpace(w[1..]) by {
        forall i | 0 <= i < |w[1..]| ensures IsSpace(w[1..][i]) { assert w[1..][i] == w[i + 1]; }
      }
      TrimStartSpaces(w[1..], y);
    } else {
      assert w + y == y;
    }
  }

  lemma {:induction false} TrimEndSpaces(y: string, w: string)
    requires AllSpace(w)
    ensures TrimEnd(y + w) == TrimEnd(y)
  {
    if w != [] {
      assert (y + w)[|y + w| - 1] == w[|w| - 1] && IsSpace(w[|w| - 1]);
      assert (y + w)[..|y + w| - 1] == y + w[..|w| - 1];
      var u := w[..|w| - 1];
      assert AllSpace(u) by {
        forall i | 0 <= i < |u| ensures IsSpace(u[i]) { assert u[i] == w[i]; }
      }
      TrimEndSpaces(y, w[..|w| - 1]);
    } else {
      assert y + w == y;
    }
  }

  lemma AllSpaceCons(y: string)
    requires y != []
    ensures AllSpace(y) <==> IsSpace(y[0]) && AllSpace(y[1..])
  {
    if IsSpace(y[0]) && AllSpace(y[1..]) {
      forall i | 0 <= i < |y| ensures IsSpace(y[i]) { if i > 0 { assert y[i] == y[1..][i - 1]; } }
    }
  }

  lemma {:induction false} TrimStartAppend(y: string, w: string)
    ensures AllSpace(y) ==> TrimStart(y + w) == TrimStart(w)
    ensures !AllSpace(y) ==> TrimStart(y + w) == TrimStart(y) + w
  {
    if y != [] {
      assert (y + w)[0] == y[0];
      assert (y + w)[1..] == y[1..] + w;
      AllSpaceCons(y);
      if IsSpace(y[0]) {
        TrimStartAppend(y[1..], w);
      }
    } else {
      assert y + w == w;
    }
  }

  /** Whitespace around a string does not change what `trim` gives. */
  lemma TrimPadded(w1: string, x: string, w2: string)
    requires AllSpace(w1) && AllSpace(w2)
    ensures Trim(w1 + x + w2) == Trim(x)
  {
    assert w1 + x + w2 == w1 + (x + w2);
    TrimStartSpaces(w1, x + w2);
    TrimStartAppend(x, w2);
    if AllSpace(x) {
      TrimStartAllSpace(w2);
      TrimStartAllSpace(x);
    } else {
      TrimEndSpaces(TrimStart(x), w2);
    }
  }

  lemma TrimStartAllSpace(w: string)
    requires AllSpace(w)
    ensures TrimStart(w) == []
  {
    TrimStartSpaces(w, []);
    assert w + [] == w;
  }

  lemma TrimStartPrefix(s: string) returns (w: string)
    ensures AllSpace(w) && s == w + TrimStart(s)
  {
    var u := TrimStart(s);
    var k := |s| - |u|;
    w := s[..k];
    assert u == s[k..];
    assert s == s[..k] + s[k..];
  }

  lemma TrimEndSuffix(s: string) returns (w: string)
    ensures AllSpace(w) && s == TrimEnd(s) + w
  {
    var t := TrimEnd(s);
    w := s[|t|..];
    assert t == s[..|t|];
  }

  /** Every string is its trimmed form surrounded by whitespace. */
  lemma TrimSplits(s: string) returns (w1: string, w2: string)
    ensures AllSpace(w1) && AllSpace(w2)
    ensures s == w1 + Trim(s) + w2
  {
    w1 := TrimStartPrefix(s);
    w2 := TrimEndSuffix(TrimStart(s));
  }

  lemma TrimNoEdgeSpace(s: string)
    ensures var t := Trim(s); t == [] || (!IsSpace(t[0]) && !IsSpace(t[|t| - 1]))
  {
    var u := TrimStart(s);
    var t := TrimEnd(u);
    if t != [] {
      assert t[0] == u[0];
    }
  }

  /** `trim` is idempotent. */
  lemma TrimIdempotent(s: string)
    ensures Trim(Trim(s)) == Trim(s)
  {
    var t := Trim(s);
    TrimNoEdgeSpace(s);
    if t != [] {
      assert TrimStart(t) == t;
      assert TrimEnd(t) == t;
    }
  }

  lemma TrimEmptyIffSpace(s: string)
    ensures Trim(s) == "" <==> AllSpace(s)
  {
    if AllSpace(s) {
      TrimStartSpaces(s, "");
      assert s + "" == s;
    } else {
      var w1, w2 := TrimSplits(s);
    }
  }

  /** A character that is not whitespace survives `trim`. */
  lemma TrimKeeps(s: string, c: char)
    requires !IsSpace(c)
    ensures c in Trim(s) <==> c in s
  {
    var w1, w2 := TrimSplits(s);
    var t := Trim(s);
    if c in s {
      var i :| 0 <= i < |s| && s[i] == c;
      if |w1| <= i < |w1| + |t| {
        assert s[i] == t[i - |w1|];
      }
    }
  }
}
