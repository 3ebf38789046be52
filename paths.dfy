/** Remote path utilities of deploy.js: JavaScript's `split("/")`, `filter(Boolean)`
    and `join("/")` on strings, the two regular-expression replacements of
    `posixJoin`, Node's `path.posix.dirname`, and the sequence of running prefixes
    that `ensureRemoteDir` visits. */
module Paths {

  /** No backslash anywhere in `s`. */
  predicate NoBackslash(s: string) {
    '\\' !in s
  }

  /** No two consecutive slashes in `s`. */
  predicate NoDoubleSlash(s: string) {
    forall i :: 0 <= i < |s| - 1 ==> !(s[i] == '/' && s[i + 1] == '/')
  }

  /** A plain path segment: what a directory listing can name without changing the
      shape of a joined path. */
  predicate PlainSegment(name: string) {
    name != "" && '/' !in name && NoBackslash(name)
  }

  /** `parts.filter(Boolean)`: a string is falsy in JavaScript exactly when it is empty. */
  function Compact(parts: seq<string>): seq<string> {
    if parts == [] then []
    else (if parts[0] == "" then [] else [parts[0]]) + Compact(parts[1..])
  }

  /** The kept parts are no more than the parts, none of them empty, each one taken
      from the parts; every non-empty part is kept, as often as it occurs; when no
      part is empty, all are kept. (`CompactAppend` gives the order.) */
  lemma {:induction false} CompactFacts(parts: seq<string>)
    ensures var r := Compact(parts);
      && |r| <= |parts|
      && (forall k :: 0 <= k < |r| ==> r[k] != "")
      && (forall x :: x in r ==> x in parts)
      && (forall x :: x != "" ==> multiset(r)[x] == multiset(parts)[x])
      && ((forall k :: 0 <= k < |parts| ==> parts[k] != "") ==> r == parts)
  {
    if parts != [] {
      CompactFacts(parts[1..]);
      var h: seq<string> := if parts[0] == "" then [] else [parts[0]];
      var t := Compact(parts[1..]);
      assert Compact(parts) == h + t;
      CompactCounts(parts);
      forall x | x in h + t ensures x in parts {
        if x in t {
          assert x in parts[1..];
        }
      }
      if forall k :: 0 <= k < |parts| ==> parts[k] != "" {
        assert forall k :: 0 <= k < |parts[1..]| ==> parts[1..][k] != "" by {
          forall k | 0 <= k < |parts[1..]| ensures parts[1..][k] != "" {
            assert parts[1..][k] == parts[k + 1];
          }
        }
        assert [parts[0]] + parts[1..] == parts;
      }
    }
  }

  /** Every non-empty string occurs as often among the kept parts as among the parts. */
  lemma {:induction false} CompactCounts(parts: seq<string>)
    ensures forall x :: x != "" ==> multiset(Compact(parts))[x] == multiset(parts)[x]
  {
    if parts != [] {
      CompactCounts(parts[1..]);
      var h: seq<string> := if parts[0] == "" then [] else [parts[0]];
      var t := Compact(parts[1..]);
      assert Compact(parts) == h + t;
      assert parts == [parts[0]] + parts[1..];
      assert multiset(parts) == multiset([parts[0]]) + multiset(parts[1..]);
      assert multiset(h + t) == multiset(h) + multiset(t);
      forall x | x != "" ensures multiset(h + t)[x] == multiset(parts)[x] {
        assert multiset(h)[x] == multiset([parts[0]])[x];
      }
    }
  }

  lemma {:induction false} CompactAppend(a: seq<string>, b: seq<string>)
    ensures Compact(a + b) == Compact(a) + Compact(b)
  {
    if a != [] {
      assert (a + b)[0] == a[0];
      assert (a + b)[1..] == a[1..] + b;
      CompactAppend(a[1..], b);
      var h: seq<string> := if a[0] == "" then [] else [a[0]];
      assert Compact(a + b) == h + Compact(a[1..] + b);
      assert Compact(a) == h + Compact(a[1..]);
    } else {
      assert a + b == b;
    }
  }

  /** An empty part contributes nothing. */
  lemma CompactEmptyPart(xs: seq<string>)
    ensures Compact([""] + xs) == Compact(xs)
  {
    assert ([""] + xs)[1..] == xs;
  }

  /** `parts.join("/")`. */
  function JoinSlash(parts: seq<string>): string {
    if |parts| == 0 then ""
    else if |parts| == 1 then parts[0]
    else parts[0] + "/" + JoinSlash(parts[1..])
  }

  lemma {:induction false} JoinAppend(a: seq<string>, b: seq<string>)
    requires a != [] && b != []
    ensures JoinSlash(a + b) == JoinSlash(a) + "/" + JoinSlash(b)
  {
    assert (a + b)[0] == a[0];
    assert (a + b)[1..] == a[1..] + b;
    if |a| > 1 {
      JoinAppend(a[1..], b);
    }
  }

  /** `s.split("/")` read from the left, with `chunk` the part of the current piece
      already read: each slash closes the current piece. */
  function SplitFrom(s: string, chunk: string): seq<string> {
    if s == [] then [chunk]
    else if s[0] == '/' then [chunk] + SplitFrom(s[1..], "")
    else SplitFrom(s[1..], chunk + [s[0]])
  }

  /** `s.split("/")`: the chunks between slashes, empty ones included; the empty
      string splits into one empty chunk. */
  function Split(s: string): seq<string> {
    SplitFrom(s, "")
  }

  lemma {:induction false} SplitFromNonEmpty(s: string, chunk: string)
    ensures |SplitFrom(s, chunk)| >= 1
    decreases |s|
  {
    if s != [] && s[0] != '/' {
      SplitFromNonEmpty(s[1..], chunk + [s[0]]);
    }
  }

  /** With no slash in the piece read so far, no chunk holds a slash, and joining the
      chunks gives that piece followed by the rest of the input. */
  lemma {:induction false} SplitFromFacts(s: string, chunk: string)
    requires '/' !in chunk
    ensures var r := SplitFrom(s, chunk);
      && |r| >= 1
      && (forall k :: 0 <= k < |r| ==> '/' !in r[k])
      && JoinSlash(r) == chunk + s
    decreases |s|
  {
    var r := SplitFrom(s, chunk);
    if s == [] {
      assert chunk + s == chunk;
    } else if s[0] == '/' {
      var rest := SplitFrom(s[1..], "");
      SplitFromFacts(s[1..], "");
      assert r == [chunk] + rest && r[1..] == rest;
      forall k | 0 <= k < |r| ensures '/' !in r[k] {
        if k > 0 {
          assert r[k] == rest[k - 1];
        }
      }
      assert JoinSlash(r) == chunk + "/" + JoinSlash(rest);
      assert s == "/" + s[1..];
    } else {
      assert '/' !in chunk + [s[0]];
      SplitFromFacts(s[1..], chunk + [s[0]]);
      assert chunk + [s[0]] + s[1..] == chunk + s;
    }
  }

  /** No chunk holds a slash, and joining them gives `s` back. */
  lemma SplitFacts(s: string)
    ensures var r := Split(s);
      && |r| >= 1
      && (forall k :: 0 <= k < |r| ==> '/' !in r[k])
      && JoinSlash(r) == s
  {
    SplitFromFacts(s, "");
    assert "" + s == s;
  }

  /** Characters read before the current piece stay in front of the first chunk. */
  lemma {:induction false} SplitFromShift(t: string, c: string, d: string)
    ensures |SplitFrom(t, d)| >= 1
    ensures SplitFrom(t, c + d) == [c + SplitFrom(t, d)[0]] + SplitFrom(t, d)[1..]
    decreases |t|
  {
    SplitFromNonEmpty(t, d);
    if t == [] {
    } else if t[0] == '/' {
      assert SplitFrom(t, d) == [d] + SplitFrom(t[1..], "");
    } else {
      SplitFromShift(t[1..], c, d + [t[0]]);
      assert c + d + [t[0]] == c + (d + [t[0]]);
    }
  }

  /** Reading a slash-free stretch only grows the current piece. */
  lemma {:induction false} SplitFromPlain(a: string, t: string, c: string)
    requires '/' !in a
    ensures SplitFrom(a + t, c) == SplitFrom(t, c + a)
    decreases |a|
  {
    if a == [] {
      assert a + t == t && c + a == c;
    } else {
      assert (a + t)[0] == a[0] && (a + t)[1..] == a[1..] + t;
      assert '/' !in a[1..] by {
        assert forall x :: x in a[1..] ==> x in a;
      }
      SplitFromPlain(a[1..], t, c + [a[0]]);
      assert c + [a[0]] + a[1..] == c + a;
    }
  }

  /** A chunk without a slash at the front of a string becomes part of its first piece. */
  lemma SplitNoSlash(a: string, t: string)
    requires '/' !in a
    ensures |Split(t)| >= 1
    ensures Split(a + t) == [a + Split(t)[0]] + Split(t)[1..]
  {
    SplitFromPlain(a, t, "");
    SplitFromShift(t, a, "");
    assert "" + a == a && a + "" == a;
  }

  /** Splitting undoes joining when no part holds a slash. */
  lemma {:induction false} SplitJoin(xs: seq<string>)
    requires xs != []
    requires forall k :: 0 <= k < |xs| ==> '/' !in xs[k]
    ensures Split(JoinSlash(xs)) == xs
  {
    if |xs| == 1 {
      SplitNoSlash(xs[0], "");
      assert xs[0] + "" == xs[0];
    } else {
      var t := "/" + JoinSlash(xs[1..]);
      SplitJoin(xs[1..]);
      assert t[0] == '/' && t[1..] == JoinSlash(xs[1..]);
      assert Split(t) == [""] + xs[1..];
      SplitNoSlash(xs[0], t);
      assert xs[0] + "" == xs[0];
      assert JoinSlash(xs) == xs[0] + t;
    }
  }

  /** `s.split("/").filter(Boolean)`: the non-empty segments of `s`, in order. */
  function Segments(s: string): seq<string> {
    Compact(Split(s))
  }

  /** Every segment is non-empty and holds no slash. */
  lemma SegmentsFacts(s: string)
    ensures forall k :: 0 <= k < |Segments(s)| ==> Segments(s)[k] != "" && '/' !in Segments(s)[k]
  {
    var r := Segments(s);
    SplitFacts(s);
    CompactFacts(Split(s));
    forall k | 0 <= k < |r| ensures r[k] != "" && '/' !in r[k] {
      assert r[k] in Split(s);
      var j :| 0 <= j < |Split(s)| && Split(s)[j] == r[k];
    }
  }

  /** A leading slash does not change the segments. */
  lemma AbsoluteSegments(s: string)
    ensures Segments("/" + s) == Segments(s)
  {
    assert ("/" + s)[1..] == s;
  }

  /** Joining plain segments behind a slash and splitting again gives them back. */
  lemma {:induction false} SegmentsOfJoin(xs: seq<string>)
    requires forall k :: 0 <= k < |xs| ==> xs[k] != "" && '/' !in xs[k]
    ensures Segments("/" + JoinSlash(xs)) == xs
  {
    var t := "/" + JoinSlash(xs);
    assert t[0] == '/' && t[1..] == JoinSlash(xs);
    if xs == [] {
      assert Split(t[1..]) == [""];
      assert Split(t) == [""] + [""];
      CompactEmptyPart([""]);
      CompactEmptyPart([]);
    } else {
      SplitJoin(xs);
      assert Split(t) == [""] + xs;
      CompactEmptyPart(xs);
      CompactFacts(xs);
    }
  }

  /** `.replace(/\\/g, "/")`: every backslash becomes a slash. */
  function ReplaceBackslashes(s: string): (r: string)
    ensures |r| == |s| && NoBackslash(r)
    ensures forall i :: 0 <= i < |s| ==> r[i] == (if s[i] == '\\' then '/' else s[i])
  {
    seq(|s|, i requires 0 <= i < |s| => if s[i] == '\\' then '/' else s[i])
  }

  lemma ReplaceAppend(a: string, b: string)
    ensures ReplaceBackslashes(a + b) == ReplaceBackslashes(a) + ReplaceBackslashes(b)
  {
  }

  lemma ReplaceNoBackslash(s: string)
    requires NoBackslash(s)
    ensures ReplaceBackslashes(s) == s
  {
  }

  /** `.replace(/\/+/g, "/")`: every run of slashes becomes a single slash. */
  function CollapseSlashes(s: string): string
    decreases |s|
  {
    if |s| <= 1 then s
    else if s[0] == '/' && s[1] == '/' then CollapseSlashes(s[1..])
    else [s[0]] + CollapseSlashes(s[1..])
  }

  /** The collapsed string has no double slash, is never longer, keeps the first
      character and brings in no backslash; a string with no double slash is left as
      it is. */
  lemma {:induction false} CollapseSlashesShape(s: string)
    ensures var r := CollapseSlashes(s);
      && NoDoubleSlash(r)
      && |r| <= |s|
      && (|s| > 0 ==> |r| > 0 && r[0] == s[0])
      && (NoBackslash(s) ==> NoBackslash(r))
      && (NoDoubleSlash(s) ==> r == s)
    decreases |s|
  {
    if |s| >= 2 {
      var t := CollapseSlashes(s[1..]);
      CollapseSlashesShape(s[1..]);
      assert NoBackslash(s) ==> NoBackslash(s[1..]) by {
        assert forall c :: c in s[1..] ==> c in s;
      }
      assert NoDoubleSlash(s) ==> NoDoubleSlash(s[1..]) by {
        if NoDoubleSlash(s) {
          forall i | 0 <= i < |s[1..]| - 1 ensures !(s[1..][i] == '/' && s[1..][i + 1] == '/') {
            assert s[1..][i] == s[i + 1] && s[1..][i + 1] == s[i + 2];
          }
        }
      }
      if !(s[0] == '/' && s[1] == '/') {
        var r := [s[0]] + t;
        assert t[0] == s[1];
        forall i | 0 <= i < |r| - 1 ensures !(r[i] == '/' && r[i + 1] == '/') {
          if i > 0 {
            assert r[i] == t[i - 1] && r[i + 1] == t[i];
          }
        }
        assert NoBackslash(s) ==> NoBackslash(r) by {
          if NoBackslash(s) {
            assert s[0] in s;
          }
        }
        if NoDoubleSlash(s) {
          assert t == s[1..];
          assert r == s;
        }
      }
    }
  }

  /** A character that does not start a double slash is kept in front. */
  lemma CollapseCons(c: char, z: string)
    requires |z| >= 1 && !(c == '/' && z[0] == '/')
    ensures CollapseSlashes([c] + z) == [c] + CollapseSlashes(z)
  {
    var w := [c] + z;
    assert w[0] == c && w[1] == z[0] && w[1..] == z;
  }

  /** A non-empty part in front is kept in front. */
  lemma CompactCons(a: string, rest: seq<string>)
    requires a != ""
    ensures Compact([a] + rest) == [a] + Compact(rest)
  {
    assert ([a] + rest)[0] == a && ([a] + rest)[1..] == rest;
  }

  /** The segments of a string that starts with a character other than a slash: that
      character is a segment of its own when the rest is empty or starts with a slash,
      and otherwise it joins the front of the first segment of the rest. */
  lemma SegmentsCons(c: char, x: string)
    requires c != '/'
    ensures x == [] || x[0] == '/' ==> Segments([c] + x) == [[c]] + Segments(x)
    ensures x != [] && x[0] != '/' ==>
      |Segments(x)| >= 1 && Segments([c] + x) == [[c] + Segments(x)[0]] + Segments(x)[1..]
  {
    var sx := Split(x);
    SplitFromPlain([c], x, "");
    SplitFromShift(x, [c], "");
    assert "" + [c] == [c] && [c] + "" == [c];
    assert Split([c] + x) == [[c] + sx[0]] + sx[1..];
    CompactCons([c] + sx[0], sx[1..]);
    if x == [] {
      assert sx == [""];
    } else if x[0] == '/' {
      assert sx == [""] + Split(x[1..]);
      assert sx[1..] == Split(x[1..]);
      CompactEmptyPart(sx[1..]);
    } else {
      SplitFromShift(x[1..], [x[0]], "");
      assert [x[0]] + "" == [x[0]] && "" + [x[0]] == [x[0]];
      assert sx == SplitFrom(x[1..], "" + [x[0]]);
      assert sx[0] != "";
      assert sx == [sx[0]] + sx[1..];
      CompactCons(sx[0], sx[1..]);
    }
  }

  /** Collapsing runs of slashes keeps the last character. */
  lemma {:induction false} CollapseSlashesLast(s: string)
    ensures |s| > 0 ==> (|CollapseSlashes(s)| > 0 && CollapseSlashes(s)[|CollapseSlashes(s)| - 1] == s[|s| - 1])
    decreases |s|
  {
    if |s| >= 2 {
      CollapseSlashesLast(s[1..]);
    }
  }

  /** Collapsing runs of slashes removes only slashes: the segments stay the same. */
  lemma {:induction false} CollapseSlashesSegments(s: string)
    ensures Segments(CollapseSlashes(s)) == Segments(s)
    decreases |s|
  {
    if |s| >= 2 {
      var t := CollapseSlashes(s[1..]);
      CollapseSlashesSegments(s[1..]);
      assert s == [s[0]] + s[1..];
      if s[0] == '/' {
        AbsoluteSegments(s[1..]);
        if s[1] != '/' {
          CollapseSlashesShape(s[1..]);
          assert CollapseSlashes(s) == "/" + t;
          AbsoluteSegments(t);
        }
      } else {
        CollapseSlashesShape(s[1..]);
        assert CollapseSlashes(s) == [s[0]] + t;
        SegmentsCons(s[0], t);
        SegmentsCons(s[0], s[1..]);
      }
    }
  }

  /** The collapsed string has no double slash, is never longer and brings in no
      backslash; it keeps the first and the last character and the segments, so only
      slashes are removed; a string with no double slash is left as it is. */
  lemma CollapseSlashesFacts(s: string)
    ensures var r := CollapseSlashes(s);
      && NoDoubleSlash(r)
      && |r| <= |s|
      && Segments(r) == Segments(s)
      && (|s| > 0 ==> |r| > 0 && r[0] == s[0] && r[|r| - 1] == s[|s| - 1])
      && (NoBackslash(s) ==> NoBackslash(r))
      && (NoDoubleSlash(s) ==> r == s)
  {
    CollapseSlashesShape(s);
    CollapseSlashesSegments(s);
    CollapseSlashesLast(s);
  }

  /** Collapsing a prefix first does not change the final collapse. */
  lemma {:induction false} CollapseAppend(x: string, y: string)
    ensures CollapseSlashes(x + y) == CollapseSlashes(CollapseSlashes(x) + y)
    decreases |x|
  {
    if |x| >= 2 {
      var xy := x + y;
      assert xy[0] == x[0] && xy[1] == x[1] && xy[1..] == x[1..] + y;
      CollapseAppend(x[1..], y);
      if x[0] == '/' && x[1] == '/' {
        assert CollapseSlashes(xy) == CollapseSlashes(x[1..] + y);
        assert CollapseSlashes(x) == CollapseSlashes(x[1..]);
      } else {
        CollapseSlashesShape(x[1..]);
        var z := CollapseSlashes(x[1..]) + y;
        CollapseCons(x[0], z);
        assert (x[1..] + y)[0] == x[1];
        CollapseCons(x[0], x[1..] + y);
        assert xy == [x[0]] + (x[1..] + y);
        assert x == [x[0]] + x[1..];
        CollapseCons(x[0], x[1..]);
        assert CollapseSlashes(x) + y == [x[0]] + z;
      }
    }
  }

  /** Of two slashes that meet where two strings are joined, collapsing keeps one. */
  lemma {:induction false} CollapseSlashSlash(a: string, b: string)
    requires |a| >= 1 && a[|a| - 1] == '/' && |b| >= 1 && b[0] == '/'
    ensures CollapseSlashes(a + b) == CollapseSlashes(a + b[1..])
    decreases |a|
  {
    var ab, ab2 := a + b, a + b[1..];
    if |a| == 1 {
      assert ab[0] == '/' && ab[1] == '/' && ab[1..] == b;
      assert b == [b[0]] + b[1..];
      assert ab2 == b;
    } else {
      assert ab[0] == a[0] && ab[1] == a[1] && ab[1..] == a[1..] + b;
      assert ab2[0] == a[0] && ab2[1] == a[1] && ab2[1..] == a[1..] + b[1..];
      CollapseSlashSlash(a[1..], b);
      if !(a[0] == '/' && a[1] == '/') {
        CollapseCons(a[0], a[1..] + b);
        CollapseCons(a[0], a[1..] + b[1..]);
        assert ab == [a[0]] + (a[1..] + b);
        assert ab2 == [a[0]] + (a[1..] + b[1..]);
      }
    }
  }

  /** The slash normalisation of `posixJoin`: backslashes to slashes, then runs collapsed. */
  function Normalize(s: string): string {
    CollapseSlashes(ReplaceBackslashes(s))
  }

  /** The normalised string has no backslash and no double slash, is never longer,
      and is empty only when `s` is. */
  lemma NormalizeShape(s: string)
    ensures var r := Normalize(s);
      && NoBackslash(r) && NoDoubleSlash(r)
      && |r| <= |s| && (s != "" ==> r != "")
  {
    CollapseSlashesShape(ReplaceBackslashes(s));
  }

  /** Besides that, normalising removes only slashes from `s` with its backslashes
      turned into slashes: that string's segments, its first and its last character
      stay. */
  lemma NormalizeFacts(s: string)
    ensures var r := Normalize(s);
      var t := ReplaceBackslashes(s);
      && NoBackslash(r) && NoDoubleSlash(r)
      && |r| <= |s| && (s != "" ==> r != "")
      && Segments(r) == Segments(t)
      && (s != "" ==> r[0] == t[0] && r[|r| - 1] == t[|t| - 1])
  {
    CollapseSlashesFacts(ReplaceBackslashes(s));
  }

  /** Normalising twice is normalising once. */
  lemma NormalizeIdempotent(s: string)
    ensures Normalize(Normalize(s)) == Normalize(s)
  {
    NormalizeShape(s);
    ReplaceNoBackslash(Normalize(s));
    CollapseSlashesShape(Normalize(s));
  }

  /** `posixJoin(...parts)`: drop empty parts, join with "/", normalise the slashes. The
      result is empty exactly when every part is, and it holds no backslash and no
      double slash. */
  function PosixJoin(parts: seq<string>): string {
    Normalize(JoinSlash(Compact(parts)))
  }

  /** The joined path holds no backslash and no double slash, and it is empty
      exactly when every part is. */
  lemma PosixJoinFacts(parts: seq<string>)
    ensures NoBackslash(PosixJoin(parts)) && NoDoubleSlash(PosixJoin(parts))
    ensures PosixJoin(parts) == "" <==> forall k :: 0 <= k < |parts| ==> parts[k] == ""
  {
    var kept := Compact(parts);
    CompactFacts(parts);
    NormalizeShape(JoinSlash(kept));
    if kept != [] {
      assert |JoinSlash(kept)| >= |kept[0]| by {
        if |kept| > 1 {
          assert JoinSlash(kept) == kept[0] + "/" + JoinSlash(kept[1..]);
        }
      }
      assert kept[0] in parts;
      var j :| 0 <= j < |parts| && parts[j] == kept[0];
      assert PosixJoin(parts) != "";
    } else {
      CompactNothingKept(parts);
    }
  }

  /** When nothing is kept, every part was empty. */
  lemma {:induction false} CompactNothingKept(parts: seq<string>)
    requires Compact(parts) == []
    ensures forall k :: 0 <= k < |parts| ==> parts[k] == ""
  {
    if parts != [] {
      assert |Compact(parts)| == (if parts[0] == "" then 0 else 1) + |Compact(parts[1..])|;
      CompactNothingKept(parts[1..]);
      forall k | 0 < k < |parts| ensures parts[k] == "" {
        assert parts[k] == parts[1..][k - 1];
      }
    }
  }

  /** Empty parts are ignored wherever they stand. */
  lemma PosixJoinIgnoresEmpty(a: seq<string>, b: seq<string>)
    ensures PosixJoin(a + [""] + b) == PosixJoin(a + b)
  {
    CompactAppend(a + [""], b);
    CompactAppend(a, [""]);
    CompactAppend(a, b);
    CompactEmptyPart([]);
    assert [""] + [] == [""];
    assert Compact(a + [""]) == Compact(a);
  }

  /** Applying the slash normalisation to a joined path changes nothing. */
  lemma PosixJoinNormalized(parts: seq<string>)
    ensures Normalize(PosixJoin(parts)) == PosixJoin(parts)
  {
    NormalizeIdempotent(JoinSlash(Compact(parts)));
  }

  /** Normalising a prefix first does not change the normalisation of the whole. */
  lemma NormalizeCat(x: string, y: string)
    ensures Normalize(Normalize(x) + y) == Normalize(x + y)
  {
    NormalizeShape(x);
    ReplaceNoBackslash(Normalize(x));
    ReplaceAppend(Normalize(x), y);
    ReplaceAppend(x, y);
    CollapseAppend(ReplaceBackslashes(x), ReplaceBackslashes(y));
  }

  /** The associativity step on the kept parts, when the first group is not empty. */
  lemma JoinNormalizedGroup(ka: seq<string>, kb: seq<string>)
    requires ka != []
    ensures Normalize(JoinSlash([Normalize(JoinSlash(ka))] + kb)) == Normalize(JoinSlash(ka + kb))
  {
    var p := Normalize(JoinSlash(ka));
    if kb == [] {
      assert [p] + kb == [p] && ka + kb == ka;
      NormalizeIdempotent(JoinSlash(ka));
    } else {
      var ja, jb := JoinSlash(ka), JoinSlash(kb);
      JoinAppend(ka, kb);
      JoinAppend([p], kb);
      assert JoinSlash([p] + kb) == p + ("/" + jb);
      NormalizeCat(ja, "/" + jb);
      assert ja + "/" + jb == ja + ("/" + jb);
    }
  }

  /** Joining a joined path with more parts is joining all the parts at once:
      `posixJoin(posixJoin(a...), b...) == posixJoin(a..., b...)`. */
  lemma PosixJoinAssociative(a: seq<string>, b: seq<string>)
    ensures PosixJoin([PosixJoin(a)] + b) == PosixJoin(a + b)
  {
    var p := PosixJoin(a);
    var ka, kb := Compact(a), Compact(b);
    CompactAppend(a, b);
    CompactAppend([p], b);
    assert ([p] + b)[1..] == b;
    if ka == [] {
      assert p == "";
      assert Compact([p] + b) == kb;
    } else {
      CompactFacts(a);
      PosixJoinFacts(a);
      assert ka[0] in a;
      var j :| 0 <= j < |a| && a[j] == ka[0];
      assert p != "";
      assert Compact([p] + b) == [p] + kb;
      JoinNormalizedGroup(ka, kb);
    }
  }

  /** The running-prefix end of Node's `path.posix.dirname`: scanning from index `i`
      down to 1, the index of the first slash met after a non-slash character, or -1. */
  function DirEnd(p: string, i: int, matchedSlash: bool): (end: int)
    requires -1 <= i < |p|
    ensures end == -1 || 1 <= end <= i
    decreases i + 1
  {
    if i < 1 then -1
    else if p[i] == '/' then (if matchedSlash then DirEnd(p, i - 1, true) else i)
    else DirEnd(p, i - 1, false)
  }

  /** Node's `path.posix.dirname`. */
  function Dirname(p: string): string {
    if |p| == 0 then "."
    else
      var end := DirEnd(p, |p| - 1, true);
      if end == -1 then (if p[0] == '/' then "/" else ".")
      else if p[0] == '/' && end == 1 then "//"
      else p[..end]
  }

  lemma {:induction false} DirEndStops(p: string, i: int, m: bool, stop: int)
    requires 1 <= stop < i < |p| && p[stop] == '/'
    requires forall j :: stop < j <= i ==> p[j] != '/'
    ensures DirEnd(p, i, m) == stop
    decreases i
  {
    if i - 1 > stop {
      DirEndStops(p, i - 1, false, stop);
    }
  }

  /** The parent of `dir + "/" + name` is `dir`, for a plain name and a directory
      that does not end in a slash. */
  lemma DirnameOfChild(dir: string, name: string)
    requires dir != "" && dir[|dir| - 1] != '/'
    requires name != "" && '/' !in name
    ensures Dirname(dir + "/" + name) == dir
  {
    var p := dir + "/" + name;
    assert p[|dir|] == '/';
    if |dir| == 1 {
      assert p[0] != '/';
    }
    forall j | |dir| < j <= |p| - 1 ensures p[j] != '/' {
      assert p[j] == name[j - |dir| - 1];
    }
    DirEndStops(p, |p| - 1, true, |dir|);
    assert p[..|dir|] == dir;
  }

  /** A directory with no double slash that does not end in a slash, a slash and a
      plain name: no double slash either. */
  lemma ChildNoDoubleSlash(d: string, name: string)
    requires NoDoubleSlash(d) && d != "" && d[|d| - 1] != '/'
    requires '/' !in name
    ensures NoDoubleSlash(d + "/" + name)
  {
    var w := d + "/" + name;
    forall i | 0 <= i < |w| - 1 ensures !(w[i] == '/' && w[i + 1] == '/') {
      if i < |d| - 1 {
        assert w[i] == d[i] && w[i + 1] == d[i + 1];
      } else if i == |d| - 1 {
        assert w[i] == d[|d| - 1];
      } else {
        assert w[i + 1] == name[i - |d|];
      }
    }
  }

  /** `posixJoin(dir, name)` for a plain name puts `name` one level below the joined
      `dir`, so its parent is that directory. */
  lemma ChildOfJoin(dir: string, name: string)
    requires PlainSegment(name)
    requires PosixJoin([dir]) != "" && PosixJoin([dir])[|PosixJoin([dir])| - 1] != '/'
    ensures PosixJoin([dir, name]) == PosixJoin([dir]) + "/" + name
    ensures Dirname(PosixJoin([dir, name])) == PosixJoin([dir])
  {
    var d := PosixJoin([dir]);
    PosixJoinFacts([dir]);
    CompactFacts([dir, name]);
    assert Compact([dir]) == [dir];
    assert Compact([dir, name]) == [dir, name];
    assert JoinSlash([dir]) == dir;
    assert JoinSlash([dir, name]) == dir + ("/" + name);
    NormalizeCat(dir, "/" + name);
    ChildNoDoubleSlash(d, name);
    assert d + ("/" + name) == d + "/" + name;
    ReplaceNoBackslash(d + "/" + name);
    CollapseSlashesShape(d + "/" + name);
    DirnameOfChild(d, name);
  }

  /** A trailing slash closes one more, empty, chunk. */
  lemma {:induction false} SplitFromSlashEnd(x: string, c: string)
    ensures SplitFrom(x + "/", c) == SplitFrom(x, c) + [""]
    decreases |x|
  {
    if x == [] {
      assert x + "/" == "/" && "/"[1..] == "";
    } else {
      assert (x + "/")[0] == x[0] && (x + "/")[1..] == x[1..] + "/";
      if x[0] == '/' {
        SplitFromSlashEnd(x[1..], "");
      } else {
        SplitFromSlashEnd(x[1..], c + [x[0]]);
      }
    }
  }

  /** A trailing slash does not change the segments. */
  lemma SegmentsTrailingSlash(x: string)
    ensures Segments(x + "/") == Segments(x)
  {
    SplitFromSlashEnd(x, "");
    CompactAppend(Split(x), [""]);
    CompactEmptyPart([]);
    assert [""] + [] == [""];
  }

  lemma {:induction false} DirEndNoSlash(p: string, i: int, m: bool)
    requires -1 <= i < |p|
    requires forall j :: 1 <= j <= i ==> p[j] != '/'
    ensures DirEnd(p, i, m) == -1
    decreases i + 1
  {
    if i >= 1 {
      DirEndNoSlash(p, i - 1, false);
    }
  }

  /** A directory with no double slash and a slash-free name behind it: no double
      slash either. */
  lemma ConcatNoDoubleSlash(d: string, name: string)
    requires NoDoubleSlash(d) && '/' !in name
    ensures NoDoubleSlash(d + name)
  {
    var w := d + name;
    forall i | 0 <= i < |w| - 1 ensures !(w[i] == '/' && w[i + 1] == '/') {
      if i < |d| - 1 {
        assert w[i] == d[i] && w[i + 1] == d[i + 1];
      } else {
        assert w[i + 1] == name[i + 1 - |d|];
      }
    }
  }

  /** Below a joined `dir` that ends in a slash, `posixJoin(dir, name)` appends the
      plain name directly. */
  lemma JoinAfterSlash(dir: string, name: string)
    requires PlainSegment(name) && PosixJoin([dir]) != ""
    requires PosixJoin([dir])[|PosixJoin([dir])| - 1] == '/'
    ensures PosixJoin([dir, name]) == PosixJoin([dir]) + name
  {
    var d := PosixJoin([dir]);
    PosixJoinFacts([dir]);
    CompactFacts([dir, name]);
    assert Compact([dir]) == [dir];
    assert Compact([dir, name]) == [dir, name];
    assert JoinSlash([dir]) == dir;
    assert JoinSlash([dir, name]) == dir + ("/" + name);
    NormalizeCat(dir, "/" + name);
    ReplaceNoBackslash(d + ("/" + name));
    assert ("/" + name)[1..] == name;
    CollapseSlashSlash(d, "/" + name);
    ConcatNoDoubleSlash(d, name);
    CollapseSlashesShape(d + name);
  }

  /** A plain name right after the trailing slash of a directory without double
      slashes: the parent has the directory's running prefixes. */
  lemma DirnameAfterSlash(d: string, name: string)
    requires PlainSegment(name) && NoDoubleSlash(d) && d != "" && d[|d| - 1] == '/'
    ensures Prefixes(Dirname(d + name)) == Prefixes(d)
  {
    if |d| == 1 {
      var p := d + name;
      assert p == "/" + name;
      forall j | 1 <= j <= |p| - 1 ensures p[j] != '/' {
        assert p[j] == name[j - 1];
      }
      DirEndNoSlash(p, |p| - 1, true);
      assert d == "/" && Dirname(p) == "/";
    } else {
      var e := d[..|d| - 1];
      assert d == e + "/";
      assert e[|e| - 1] == d[|d| - 2];
      assert d + name == e + "/" + name;
      DirnameOfChild(e, name);
      SegmentsTrailingSlash(e);
      assert Prefixes(d) == Prefixes(e);
    }
  }

  /** `posixJoin(dir, name)` for a plain name and any `dir` whose join is not empty:
      the name goes right below the joined `dir`, after its trailing slash if it has
      one, and the parent of the result has the same running prefixes as that
      directory. */
  lemma ChildOfAnyJoin(dir: string, name: string)
    requires PlainSegment(name) && PosixJoin([dir]) != ""
    ensures var d := PosixJoin([dir]);
      PosixJoin([dir, name]) == (if d[|d| - 1] == '/' then d + name else d + "/" + name)
    ensures Prefixes(Dirname(PosixJoin([dir, name]))) == Prefixes(PosixJoin([dir]))
  {
    var d := PosixJoin([dir]);
    if d[|d| - 1] != '/' {
      ChildOfJoin(dir, name);
    } else {
      PosixJoinFacts([dir]);
      JoinAfterSlash(dir, name);
      DirnameAfterSlash(d, name);
    }
  }

  /** With an empty `dir`, `posixJoin(dir, name)` is the plain name alone. */
  lemma ChildOfEmptyJoin(name: string)
    requires PlainSegment(name)
    ensures PosixJoin(["", name]) == name
  {
    CompactEmptyPart([name]);
    assert [""] + [name] == ["", name];
    assert Compact([name]) == [name];
    assert JoinSlash([name]) == name;
    ReplaceNoBackslash(name);
    assert NoDoubleSlash(name) by {
      assert forall i :: 0 <= i < |name| ==> name[i] != '/';
    }
    CollapseSlashesShape(name);
  }

  /** The running prefixes that `ensureRemoteDir(dir)` visits: one per non-empty
      segment, the k-th being "/" followed by the first k segments joined by "/". */
  function Prefixes(dir: string): seq<string> {
    var parts := Segments(dir);
    seq(|parts|, k requires 0 <= k < |parts| => "/" + JoinSlash(parts[..k + 1]))
  }

  /** The shape of the prefix sequence: one prefix per segment; the first is "/" and
      the first segment; each later one extends the one before by "/" and the next
      segment; each one is absolute and splits back into exactly the segments it was
      built from. */
  lemma PrefixesShape(dir: string)
    ensures |Prefixes(dir)| == |Segments(dir)|
    ensures |Prefixes(dir)| > 0 ==> Prefixes(dir)[0] == "/" + Segments(dir)[0]
    ensures forall k :: 0 < k < |Prefixes(dir)| ==>
      Prefixes(dir)[k] == Prefixes(dir)[k - 1] + "/" + Segments(dir)[k]
    ensures forall k :: 0 <= k < |Prefixes(dir)| ==>
      |Prefixes(dir)[k]| >= 2 && Prefixes(dir)[k][0] == '/'
    ensures forall k :: 0 <= k < |Prefixes(dir)| ==>
      Segments(Prefixes(dir)[k]) == Segments(dir)[..k + 1]
  {
    var parts, ps := Segments(dir), Prefixes(dir);
    SegmentsFacts(dir);
    if |ps| > 0 {
      assert parts[..1] == [parts[0]];
      assert ps[0] == "/" + JoinSlash(parts[..1]);
    }
    forall k | 0 < k < |ps| ensures ps[k] == ps[k - 1] + "/" + parts[k] {
      assert parts[..k + 1] == parts[..k] + [parts[k]];
      JoinAppend(parts[..k], [parts[k]]);
    }
    forall k | 0 <= k < |ps| ensures |ps[k]| >= 2 && Segments(ps[k]) == parts[..k + 1] {
      PrefixSegments(parts, k);
    }
  }

  /** One running prefix, "/" and the first `k + 1` segments joined: at least two
      characters long, and it splits back into those segments. */
  lemma PrefixSegments(parts: seq<string>, k: int)
    requires 0 <= k < |parts|
    requires forall i :: 0 <= i < |parts| ==> parts[i] != "" && '/' !in parts[i]
    ensures |"/" + JoinSlash(parts[..k + 1])| >= 2
    ensures Segments("/" + JoinSlash(parts[..k + 1])) == parts[..k + 1]
  {
    assert parts[..k + 1][0] == parts[0];
    assert |JoinSlash(parts[..k + 1])| >= 1 by {
      if k > 0 {
        assert parts[..k + 1] == parts[..k] + [parts[k]];
        JoinAppend(parts[..k], [parts[k]]);
      }
    }
    SegmentsOfJoin(parts[..k + 1]);
  }

  /** `ensureRemoteDir(d)` and `ensureRemoteDir("/" + d)` visit the same prefixes. */
  lemma AbsoluteRelativeSamePrefixes(dir: string)
    ensures Prefixes("/" + dir) == Prefixes(dir)
  {
    AbsoluteSegments(dir);
  }

  /** The root, the empty string and slash-only strings have no segments, hence no prefixes. */
  lemma RootHasNoPrefixes(dir: string)
    requires forall i :: 0 <= i < |dir| ==> dir[i] == '/'
    ensures Prefixes(dir) == []
    ensures Prefixes("") == [] && Prefixes("/") == []
  {
    SlashesSplitEmpty(dir);
    assert Split("") == [""];
    assert "/"[1..] == "";
    assert Split("/") == ["", ""];
  }

  lemma {:induction false} SlashesSplitEmpty(s: string)
    requires forall i :: 0 <= i < |s| ==> s[i] == '/'
    ensures Segments(s) == []
  {
    if s != [] {
      SlashesSplitEmpty(s[1..]);
    }
  }
}
