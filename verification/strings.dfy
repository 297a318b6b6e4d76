/** Line-oriented text: joining lines with a separator, splitting text back
    into lines, and the subsequence order on sequences. */
module Strings {

  /** The parts written one after another with `sep` between neighbours. */
  function Join(parts: seq<string>, sep: string): string
    decreases |parts|
  {
    if |parts| == 0 then ""
    else if |parts| == 1 then parts[0]
    else parts[0] + sep + Join(parts[1..], sep)
  }

  /** Appending one more part adds the separator and the part at the end. */
  lemma {:induction false} JoinSnoc(parts: seq<string>, sep: string, x: string)
    requires |parts| >= 1
    ensures Join(parts + [x], sep) == Join(parts, sep) + sep + x
    decreases |parts|
  {
    if |parts| == 1 {
      assert (parts + [x])[1..] == [x];
    } else {
      assert (parts + [x])[1..] == parts[1..] + [x];
      JoinSnoc(parts[1..], sep, x);
    }
  }

  /** Cuts `s` at every occurrence of `sep`, scanning left to right. */
  function Split(s: string, sep: string): (r: seq<string>)
    requires |sep| > 0
    ensures |r| >= 1
    decreases |s|
  {
    if |s| == 0 then [""]
    else if sep <= s then [""] + Split(s[|sep|..], sep)
    else
      var t := Split(s[1..], sep);
      [[s[0]] + t[0]] + t[1..]
  }

  /** No character of `p` starts a separator. */
  predicate FreeOf(p: string, c: char) {
    forall i :: 0 <= i < |p| ==> p[i] != c
  }

  /** A piece that cannot start a separator is glued to the first line of
      what follows it. */
  lemma {:induction false} SplitFreePrefix(p: string, rest: string, sep: string)
    requires |sep| > 0 && FreeOf(p, sep[0])
    ensures Split(p + rest, sep) == [p + Split(rest, sep)[0]] + Split(rest, sep)[1..]
    decreases |p|
  {
    if |p| > 0 {
      var s := p + rest;
      assert s[0] == p[0] && !(sep <= s);
      assert s[1..] == p[1..] + rest;
      SplitFreePrefix(p[1..], rest, sep);
      assert [s[0]] + (p[1..] + Split(rest, sep)[0]) == p + Split(rest, sep)[0];
    } else {
      var t := Split(rest, sep);
      assert p + rest == rest && p + t[0] == t[0];
      assert t == [t[0]] + t[1..];
    }
  }

  /** Splitting undoes joining when no part contains the separator's first
      character: the lines a reader recovers are exactly the lines written. */
  lemma {:induction false} SplitJoin(parts: seq<string>, sep: string)
    requires |sep| > 0 && |parts| >= 1
    requires forall i :: 0 <= i < |parts| ==> FreeOf(parts[i], sep[0])
    ensures Split(Join(parts, sep), sep) == parts
    decreases |parts|
  {
    if |parts| == 1 {
      SplitFreePrefix(parts[0], "", sep);
      assert parts[0] + "" == parts[0];
    } else {
      var tail := Join(parts[1..], sep);
      var rest := sep + tail;
      assert Join(parts, sep) == parts[0] + rest;
      SplitFreePrefix(parts[0], rest, sep);
      assert sep <= rest && rest[|sep|..] == tail;
      SplitJoin(parts[1..], sep);
      var t := Split(rest, sep);
      assert t == [""] + parts[1..];
      assert t[0] == "" && t[1..] == parts[1..];
      assert parts[0] + t[0] == parts[0];
      assert parts == [parts[0]] + parts[1..];
    }
  }

  /** Text with no character split out of it keeps that property when
      concatenated. */
  lemma FreeOfConcat(a: string, b: string, c: char)
    requires FreeOf(a, c) && FreeOf(b, c)
    ensures FreeOf(a + b, c)
  {
  }

  /** Text with no separator in it splits into itself alone. */
  lemma SplitNoSeparator(s: string, sep: string)
    requires |sep| > 0 && FreeOf(s, sep[0])
    ensures Split(s, sep) == [s]
  {
    SplitJoin([s], sep);
  }

  /** Every line feed in `s` closes a CRLF pair and every carriage return
      opens one: `s` has no bare CR and no bare LF. */
  predicate CrlfOnly(s: string) {
    (forall i :: 0 <= i < |s| && s[i] == '\n' ==> 0 < i && s[i - 1] == '\r') &&
    (forall i :: 0 <= i < |s| && s[i] == '\r' ==> i + 1 < |s| && s[i + 1] == '\n')
  }

  lemma CrlfOnlyConcat(a: string, b: string)
    requires CrlfOnly(a) && CrlfOnly(b)
    ensures CrlfOnly(a + b)
  {
  }

  /** Lines holding neither CR nor LF, joined with CRLF, hold line breaks
      only inside the separators. */
  lemma {:induction false} JoinCrlfOnly(parts: seq<string>)
    requires forall i :: 0 <= i < |parts| ==> FreeOf(parts[i], '\r') && FreeOf(parts[i], '\n')
    ensures CrlfOnly(Join(parts, "\r\n"))
    decreases |parts|
  {
    if |parts| > 1 {
      JoinCrlfOnly(parts[1..]);
      CrlfOnlyConcat(parts[0], "\r\n");
      CrlfOnlyConcat(parts[0] + "\r\n", Join(parts[1..], "\r\n"));
    }
  }

  /** The text before the first `c`, or all of `s` when it has none. */
  function Before(s: string, c: char): (r: string)
    ensures r <= s && FreeOf(r, c)
    decreases |s|
  {
    if s == [] || s[0] == c then [] else [s[0]] + Before(s[1..], c)
  }

  /** The text after the first `c`, or "" when `s` has none. */
  function After(s: string, c: char): (r: string)
    ensures |r| < |s| || r == []
    decreases |s|
  {
    if s == [] then [] else if s[0] == c then s[1..] else After(s[1..], c)
  }

  /** Cutting at the first `c` finds the pieces on either side of it. */
  lemma {:induction false} CutAtFirst(a: string, c: char, b: string)
    requires FreeOf(a, c)
    ensures Before(a + [c] + b, c) == a && After(a + [c] + b, c) == b
    decreases |a|
  {
    var s := a + [c] + b;
    if a == [] {
      assert s == [c] + b;
    } else {
      assert s[0] == a[0] && s[1..] == a[1..] + [c] + b;
      assert FreeOf(a[1..], c) by {
        forall i | 0 <= i < |a[1..]| ensures a[1..][i] != c {
          assert a[1..][i] == a[i + 1];
        }
      }
      CutAtFirst(a[1..], c, b);
      assert a == [a[0]] + a[1..];
    }
  }

  /** Text without `c` is all before it and has nothing after it. */
  lemma {:induction false} CutWithout(s: string, c: char)
    requires FreeOf(s, c)
    ensures Before(s, c) == s && After(s, c) == []
    decreases |s|
  {
    if s != [] {
      assert FreeOf(s[1..], c) by {
        forall i | 0 <= i < |s[1..]| ensures s[1..][i] != c {
          assert s[1..][i] == s[i + 1];
        }
      }
      CutWithout(s[1..], c);
      assert s == [s[0]] + s[1..];
    }
  }

  /** `a` can be obtained from `b` by deleting elements. */
  predicate IsSubsequence<T(==)>(a: seq<T>, b: seq<T>)
    decreases |b|
  {
    a == [] ||
    (b != [] &&
     ((a[0] == b[0] && IsSubsequence(a[1..], b[1..])) || IsSubsequence(a, b[1..])))
  }

  /** A prefix of a subsequence is a subsequence. */
  lemma {:induction false} PrefixOfSubsequence<T>(p: seq<T>, a: seq<T>, b: seq<T>)
    requires p <= a && IsSubsequence(a, b)
    ensures IsSubsequence(p, b)
    decreases |b|
  {
    if p != [] {
      if a[0] == b[0] && IsSubsequence(a[1..], b[1..]) {
        PrefixOfSubsequence(p[1..], a[1..], b[1..]);
      } else {
        PrefixOfSubsequence(p, a, b[1..]);
      }
    }
  }
}
