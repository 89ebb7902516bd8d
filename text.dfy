/** String operations the indexer and its pages use: JavaScript's startsWith,
    indexOf / lastIndexOf on one character, split / join / filter(Boolean) /
    pop / slice(0, -1) on '/', Node's path.basename, ASCII lower-casing and
    decimal rendering of whole numbers (Number.prototype.toString and
    padStart(2, '0')). */
module Text {

  /** `s.startsWith(prefix)`. */
  predicate StartsWith(s: string, prefix: string) {
    prefix <= s
  }

  /** `s.indexOf(c)`: the first position of `c`, or -1. */
  function IndexOf(s: string, c: char): (r: int)
    ensures -1 <= r < |s|
    ensures r == -1 <==> c !in s
    ensures 0 <= r ==> s[r] == c && c !in s[..r]
    decreases |s|
  {
    if |s| == 0 then -1
    else if s[0] == c then 0
    else
      var k := IndexOf(s[1..], c);
      assert s == [s[0]] + s[1..];
      if k == -1 then -1
      else
        assert s[..k + 1] == [s[0]] + s[1..][..k];
        k + 1
  }

  /** `s.lastIndexOf(c)`: the last position of `c`, or -1. */
  function LastIndexOf(s: string, c: char): (r: int)
    ensures -1 <= r < |s|
    ensures r == -1 <==> c !in s
    ensures 0 <= r ==> s[r] == c
    ensures forall j :: r < j < |s| ==> s[j] != c
  {
    LastIndexOfBelow(s, c, |s|)
  }

  /** The last position below `n` that holds `c`, or -1. */
  function LastIndexOfBelow(s: string, c: char, n: nat): (r: int)
    requires n <= |s|
    ensures -1 <= r < n
    ensures 0 <= r ==> s[r] == c
    ensures forall j :: r < j < n ==> s[j] != c
  {
    if n == 0 then -1
    else if s[n - 1] == c then n - 1
    else LastIndexOfBelow(s, c, n - 1)
  }

  /** Any position that holds `c` with no `c` before it is what IndexOf finds. */
  lemma {:induction false} IndexOfIs(s: string, c: char, k: nat)
    requires k < |s| && s[k] == c && c !in s[..k]
    ensures IndexOf(s, c) == k
  {
    assert s[k] in s;
    var r := IndexOf(s, c);
    assert forall j :: 0 <= j < k ==> s[j] != c by {
      forall j | 0 <= j < k ensures s[j] != c { assert s[..k][j] == s[j]; }
    }
    assert forall j :: 0 <= j < r ==> s[j] != c by {
      forall j | 0 <= j < r ensures s[j] != c { assert s[..r][j] == s[j]; }
    }
  }

  /** Any position that holds `c` with no `c` after it is what LastIndexOf finds. */
  lemma {:induction false} LastIndexOfIs(s: string, c: char, k: nat)
    requires k < |s| && s[k] == c && c !in s[k + 1..]
    ensures LastIndexOf(s, c) == k
  {
    assert s[k] in s;
    var r := LastIndexOf(s, c);
    assert forall j :: k < j < |s| ==> s[j] != c by {
      forall j | k < j < |s| ensures s[j] != c { assert s[k + 1..][j - k - 1] == s[j]; }
    }
    assert forall j :: r < j < |s| ==> s[j] != c by {
      forall j | r < j < |s| ensures s[j] != c { assert s[r + 1..][j - r - 1] == s[j]; }
    }
  }

  /** With some '/' at `i` and another after it, the text after the last
      '/' is the same seen from `i`. */
  lemma {:induction false} SlashAfter(s: string, i: nat)
    requires i < |s| && s[i] == '/' && LastIndexOf(s[i + 1..], '/') >= 0
    ensures s[LastIndexOf(s, '/') + 1..] == s[i + 1..][LastIndexOf(s[i + 1..], '/') + 1..]
  {
    var t := s[i + 1..];
    var j := LastIndexOf(t, '/');
    assert s[i + 1 + j] == t[j];
    assert s[i + 1 + j + 1..] == t[j + 1..];
    LastIndexOfIs(s, '/', i + 1 + j);
  }

  /** With no '/' after position `i`, the text after the last '/' is all of
      what follows `i`. */
  lemma {:induction false} NoSlashAfter(s: string, i: nat)
    requires i < |s| && s[i] == '/' && LastIndexOf(s[i + 1..], '/') < 0
    ensures s[LastIndexOf(s, '/') + 1..] == s[i + 1..][LastIndexOf(s[i + 1..], '/') + 1..]
  {
    LastIndexOfIs(s, '/', i);
    assert s[i + 1..][0..] == s[i + 1..];
  }

  lemma {:induction false} AppendAssoc<T>(a: seq<T>, b: seq<T>, c: seq<T>)
    ensures a + b + c == a + (b + c)
  {
  }

  /** `parts.join(sep)`. */
  function Join(parts: seq<string>, sep: char): string
  {
    if |parts| == 0 then ""
    else if |parts| == 1 then parts[0]
    else parts[0] + [sep] + Join(parts[1..], sep)
  }

  /** `s.split(sep)` for a one-character separator: never empty, and an
      empty string splits into one empty part. */
  function Split(s: string, sep: char): (parts: seq<string>)
    ensures |parts| >= 1
    decreases |s|
  {
    var i := IndexOf(s, sep);
    if i == -1 then [s] else [s[..i]] + Split(s[i + 1..], sep)
  }

  /** No part of a split holds the separator. */
  lemma {:induction false} SplitPartsSepFree(s: string, sep: char)
    ensures forall k :: 0 <= k < |Split(s, sep)| ==> sep !in Split(s, sep)[k]
    decreases |s|
  {
    var i := IndexOf(s, sep);
    if i != -1 {
      SplitPartsSepFree(s[i + 1..], sep);
    }
  }

  /** Joining the parts of a split gives the string back. */
  lemma {:induction false} JoinSplit(s: string, sep: char)
    ensures Join(Split(s, sep), sep) == s
    decreases |s|
  {
    var i := IndexOf(s, sep);
    if i != -1 {
      var head, tail := s[..i], s[i + 1..];
      var rest := Split(tail, sep);
      assert s == head + [sep] + tail by {
        assert head + [sep] == s[..i + 1];
      }
      calc {
        Join(Split(s, sep), sep);
        Join([head] + rest, sep);
        { JoinCons(head, rest, sep); }
        head + [sep] + Join(rest, sep);
        { JoinSplit(tail, sep); }
        head + [sep] + tail;
      }
    }
  }

  lemma {:induction false} JoinCons(p: string, rest: seq<string>, sep: char)
    requires |rest| >= 1
    ensures Join([p] + rest, sep) == p + [sep] + Join(rest, sep)
  {
    assert ([p] + rest)[1..] == rest;
  }

  /** Splitting a join of separator-free parts gives the parts back. */
  lemma {:induction false} SplitJoin(parts: seq<string>, sep: char)
    requires |parts| >= 1
    requires forall i :: 0 <= i < |parts| ==> sep !in parts[i]
    ensures Split(Join(parts, sep), sep) == parts
    decreases |parts|
  {
    if |parts| > 1 {
      var s := Join(parts, sep);
      var p := parts[0];
      assert s == p + [sep] + Join(parts[1..], sep);
      assert s[..|p|] == p;
      IndexOfIs(s, sep, |p|);
      assert s[|p| + 1..] == Join(parts[1..], sep);
      SplitJoin(parts[1..], sep);
      assert parts == [parts[0]] + parts[1..];
    }
  }

  /** `parts.filter(Boolean)`: the non-empty parts, in order. */
  function NonEmpty(parts: seq<string>): (r: seq<string>)
    ensures |r| <= |parts|
    ensures forall i :: 0 <= i < |r| ==> r[i] != "" && r[i] in parts
    ensures forall x :: x != "" ==> multiset(r)[x] == multiset(parts)[x]
    ensures (forall i :: 0 <= i < |parts| ==> parts[i] != "") ==> r == parts
    ensures |parts| == 1 ==> r == (if parts[0] == "" then [] else parts)
  {
    if |parts| == 0 then []
    else
      assert parts == [parts[0]] + parts[1..];
      (if parts[0] == "" then [] else [parts[0]]) + NonEmpty(parts[1..])
  }

  /** The filter works part by part: filtering a concatenation concatenates
      the filtered pieces, so every non-empty part is kept in its place. */
  lemma {:induction false} NonEmptyAppend(a: seq<string>, b: seq<string>)
    ensures NonEmpty(a + b) == NonEmpty(a) + NonEmpty(b)
    decreases |a|
  {
    if |a| == 0 {
      assert a + b == b;
    } else {
      assert (a + b)[1..] == a[1..] + b;
      NonEmptyAppend(a[1..], b);
    }
  }

  /** The non-empty '/'-segments of a path. */
  function Segments(s: string): seq<string>
  {
    NonEmpty(Split(s, '/'))
  }

  /** Joining non-empty, slash-free segments and taking the segments back is the identity. */
  lemma {:induction false} SegmentsJoin(segs: seq<string>)
    requires |segs| >= 1
    requires forall i :: 0 <= i < |segs| ==> segs[i] != "" && '/' !in segs[i]
    ensures Segments(Join(segs, '/')) == segs
  {
    SplitJoin(segs, '/');
  }

  /** `s.split('/').pop()`. */
  function LastSegment(s: string): string
  {
    var parts := Split(s, '/');
    parts[|parts| - 1]
  }

  /** The last segment is exactly the text after the last '/'. */
  lemma {:induction false} LastSegmentIsSuffix(s: string)
    ensures LastSegment(s) == s[LastIndexOf(s, '/') + 1..]
    decreases |s|
  {
    var i := IndexOf(s, '/');
    if i == -1 {
      LastSegmentWithoutSlash(s);
    } else {
      LastSegmentStep(s, i);
      LastSegmentIsSuffix(s[i + 1..]);
      SuffixAfter(s, i);
    }
  }

  /** Without a '/', the last segment is the whole string. */
  lemma {:induction false} LastSegmentWithoutSlash(s: string)
    requires '/' !in s
    ensures LastSegment(s) == s && LastIndexOf(s, '/') == -1
  {
    assert Split(s, '/') == [s];
  }

  /** Past the first '/', the last segment is the rest's last segment. */
  lemma {:induction false} LastSegmentStep(s: string, i: nat)
    requires i < |s| && s[i] == '/' && '/' !in s[..i]
    ensures LastSegment(s) == LastSegment(s[i + 1..])
  {
    IndexOfIs(s, '/', i);
    var rest := Split(s[i + 1..], '/');
    assert Split(s, '/') == [s[..i]] + rest;
  }

  /** The text after the last '/' is the same seen from any earlier '/'. */
  lemma {:induction false} SuffixAfter(s: string, i: nat)
    requires i < |s| && s[i] == '/'
    ensures s[LastIndexOf(s, '/') + 1..] == s[i + 1..][LastIndexOf(s[i + 1..], '/') + 1..]
  {
    if LastIndexOf(s[i + 1..], '/') >= 0 {
      SlashAfter(s, i);
    } else {
      NoSlashAfter(s, i);
    }
  }

  /** `s.split('/').pop() || dflt`: the last segment, or the default when it is empty. */
  function LastSegmentOr(s: string, dflt: string): (r: string)
    ensures var seg := s[LastIndexOf(s, '/') + 1..];
            r == (if seg == "" then dflt else seg)
    ensures dflt != "" ==> r != ""
  {
    LastSegmentIsSuffix(s);
    var seg := LastSegment(s);
    if seg == "" then dflt else seg
  }

  /** `parts.slice(0, -1)`. */
  function DropLast<T>(parts: seq<T>): seq<T>
  {
    if |parts| == 0 then [] else parts[..|parts| - 1]
  }

  /** `s.split('/').slice(0, -1).join('/')`: the path without its last segment. */
  function ParentPath(s: string): (r: string)
    ensures r == (if '/' in s then s[..LastIndexOf(s, '/')] else "")
  {
    ParentIsPrefix(s);
    Join(DropLast(Split(s, '/')), '/')
  }

  lemma {:induction false} ParentIsPrefix(s: string)
    ensures Join(DropLast(Split(s, '/')), '/') == (if '/' in s then s[..LastIndexOf(s, '/')] else "")
  {
    if '/' in s {
      ParentWithSlash(s);
    } else {
      assert Split(s, '/') == [s];
    }
  }

  lemma {:induction false} ParentWithSlash(s: string)
    requires '/' in s
    ensures Join(DropLast(Split(s, '/')), '/') == s[..LastIndexOf(s, '/')]
  {
    var parts := Split(s, '/');
    RestHasTwoParts(s);
    var d := DropLast(parts);
    var last := LastSegment(s);
    assert parts == d + [last];
    var k := LastIndexOf(s, '/');
    assert s == Join(d, '/') + ['/'] + s[k + 1..] by {
      JoinSplit(s, '/');
      JoinSnoc(d, last, '/');
      LastSegmentIsSuffix(s);
    }
  }

  lemma {:induction false} JoinSnoc(d: seq<string>, x: string, sep: char)
    requires |d| >= 1
    ensures Join(d + [x], sep) == Join(d, sep) + [sep] + x
    decreases |d|
  {
    if |d| > 1 {
      assert (d + [x])[1..] == d[1..] + [x];
      JoinSnoc(d[1..], x, sep);
    } else {
      assert d + [x] == [d[0], x];
    }
  }

  lemma {:induction false} RestHasTwoParts(t: string)
    requires '/' in t
    ensures |Split(t, '/')| >= 2
  {
    var i := IndexOf(t, '/');
    assert Split(t, '/') == [t[..i]] + Split(t[i + 1..], '/');
  }

  /** Drops every trailing `c`. */
  function StripTrailing(s: string, c: char): (r: string)
    ensures r <= s
    ensures r == "" || r[|r| - 1] != c
    ensures forall i :: |r| <= i < |s| ==> s[i] == c
    decreases |s|
  {
    if |s| > 0 && s[|s| - 1] == c then StripTrailing(s[..|s| - 1], c) else s
  }

  /** Node's `path.basename` on POSIX paths: the last segment once trailing
      slashes are dropped. */
  function Basename(p: string): (r: string)
    ensures '/' !in r
  {
    var q := StripTrailing(p, '/');
    NoSlashInLastSegment(q);
    LastSegment(q)
  }

  /** The base name is the text after the last '/' once trailing slashes are
      dropped. */
  lemma {:induction false} BasenameIsLastSegment(p: string)
    ensures var q := StripTrailing(p, '/');
      Basename(p) == q[LastIndexOf(q, '/') + 1..]
  {
    var q := StripTrailing(p, '/');
    LastSegmentIsSuffix(q);
  }

  lemma {:induction false} NoSlashInLastSegment(s: string)
    ensures '/' !in LastSegment(s)
  {
    SplitPartsSepFree(s, '/');
  }

  /** `String.prototype.toLowerCase` on ASCII letters. */
  function LowerChar(c: char): (r: char)
    ensures ('A' <= c <= 'Z') ==> 'a' <= r <= 'z'
    ensures !('A' <= c <= 'Z') ==> r == c
  {
    if 'A' <= c <= 'Z' then (c as int - 'A' as int + 'a' as int) as char else c
  }

  function ToLower(s: string): (r: string)
    ensures |r| == |s|
    ensures forall i :: 0 <= i < |s| ==> r[i] == LowerChar(s[i])
  {
    seq(|s|, i requires 0 <= i < |s| => LowerChar(s[i]))
  }

  predicate IsDigit(c: char) {
    '0' <= c <= '9'
  }

  predicate AllDigits(s: string) {
    forall i :: 0 <= i < |s| ==> IsDigit(s[i])
  }

  function DigitChar(d: nat): (c: char)
    requires d < 10
    ensures IsDigit(c) && c as int - '0' as int == d
  {
    ('0' as int + d) as char
  }

  /** The value of a string of decimal digits (leading zeros allowed). */
  function ParseDecimal(s: string): nat
    requires AllDigits(s)
  {
    if |s| == 0 then 0
    else ParseDecimal(s[..|s| - 1]) * 10 + (s[|s| - 1] as int - '0' as int)
  }

  /** `n.toString()` for a whole number: its shortest decimal digits. */
  function DecimalString(n: nat): (r: string)
    ensures |r| >= 1 && AllDigits(r)
    ensures ParseDecimal(r) == n
    ensures n < 10 <==> |r| == 1
    ensures r[0] != '0' || n == 0
    decreases n
  {
    if n < 10 then [DigitChar(n)]
    else
      var front := DecimalString(n / 10);
      var r := front + [DigitChar(n % 10)];
      assert r[..|r| - 1] == front;
      r
  }

  /** A leading zero does not change a decimal value. */
  lemma {:induction false} ParseLeadingZero(s: string)
    requires AllDigits(s)
    ensures AllDigits("0" + s) && ParseDecimal("0" + s) == ParseDecimal(s)
    decreases |s|
  {
    if |s| > 0 {
      var z := "0" + s;
      assert z[..|z| - 1] == "0" + s[..|s| - 1];
      ParseLeadingZero(s[..|s| - 1]);
    }
  }

  /** `s.padStart(2, '0')`. */
  function Pad2(s: string): (r: string)
    ensures |r| == if |s| >= 2 then |s| else 2
    ensures |s| >= 2 ==> r == s
    ensures |s| < 2 ==> r[2 - |s|..] == s
    decreases 2 - |s|
  {
    if |s| >= 2 then s else Pad2("0" + s)
  }

  /** Padding a number below 100 gives exactly two digits with the same value. */
  lemma {:induction false} PaddedValue(n: nat)
    requires n < 100
    ensures |Pad2(DecimalString(n))| == 2 && AllDigits(Pad2(DecimalString(n)))
    ensures ParseDecimal(Pad2(DecimalString(n))) == n
  {
    var d := DecimalString(n);
    if n < 10 {
      assert Pad2(d) == "0" + d;
      ParseLeadingZero(d);
    } else {
      assert |d| == 2 by {
        var front := DecimalString(n / 10);
        assert |front| == 1;
      }
    }
  }
}
