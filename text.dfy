/** String helpers with the meaning of the Python `str` methods the program
    uses: `lower`, `upper`, `split(sep)`, `split()`, `sep.join(parts)` and the
    substring test `pat in s`. Case mapping is ASCII only. */
module Text {

  predicate IsUpperChar(c: char) { 'A' <= c <= 'Z' }

  predicate IsLowerChar(c: char) { 'a' <= c <= 'z' }

  function LowerChar(c: char): char
  {
    if IsUpperChar(c) then (c as int - 'A' as int + 'a' as int) as char else c
  }

  function UpperChar(c: char): char
  {
    if IsLowerChar(c) then (c as int - 'a' as int + 'A' as int) as char else c
  }

  /** `s.lower()` */
  function Lower(s: string): string
  {
    seq(|s|, i requires 0 <= i < |s| => LowerChar(s[i]))
  }

  /** `s.upper()` */
  function Upper(s: string): string
  {
    seq(|s|, i requires 0 <= i < |s| => UpperChar(s[i]))
  }

  predicate HasUpper(s: string)
  {
    exists i :: 0 <= i < |s| && IsUpperChar(s[i])
  }

  lemma LowerAppend(a: string, b: string)
    ensures Lower(a + b) == Lower(a) + Lower(b)
  {
  }

  /** A lower-cased string has no upper-case letter left. */
  lemma LowerHasNoUpper(s: string)
    ensures !HasUpper(Lower(s))
  {
  }

  /** Upper-casing loses nothing that lower-casing keeps. */
  lemma LowerOfUpper(s: string)
    ensures Lower(Upper(s)) == Lower(s)
  {
  }

  // ---------------------------------------------------------------------
  // Whitespace splitting, `s.split()`

  /** The characters `str.split()` treats as separators (ASCII range). */
  predicate IsSpace(c: char)
  {
    c == ' ' || 9 <= c as int <= 13 || 28 <= c as int <= 31
  }

  predicate NoSpace(w: string)
  {
    forall i :: 0 <= i < |w| ==> !IsSpace(w[i])
  }

  predicate HasNonSpace(s: string)
  {
    exists i :: 0 <= i < |s| && !IsSpace(s[i])
  }

  /** Length of the run of non-space characters that starts `s`. */
  function WordLength(s: string): (n: nat)
    ensures n <= |s|
    ensures NoSpace(s[..n])
    ensures n < |s| ==> IsSpace(s[n])
  {
    if s == [] || IsSpace(s[0]) then 0 else 1 + WordLength(s[1..])
  }

  /** `s.split()`: the maximal runs of non-space characters, in order. */
  function Words(s: string): (ws: seq<string>)
    ensures forall k :: 0 <= k < |ws| ==> ws[k] != [] && NoSpace(ws[k])
    decreases |s|
  {
    if s == [] then []
    else if IsSpace(s[0]) then Words(s[1..])
    else
      var n := WordLength(s);
      [s[..n]] + Words(s[n..])
  }

  /** `split()` yields at least one word exactly when there is a non-space
      character; so `line.split()[-1]` is defined on such lines. */
  lemma {:induction false} WordsNonEmpty(s: string)
    ensures |Words(s)| > 0 <==> HasNonSpace(s)
    decreases |s|
  {
    if s == [] {
    } else if IsSpace(s[0]) {
      WordsNonEmpty(s[1..]);
      if HasNonSpace(s) {
        var i :| 0 <= i < |s| && !IsSpace(s[i]);
        assert s[1..][i - 1] == s[i];
      }
      if HasNonSpace(s[1..]) {
        var i :| 0 <= i < |s[1..]| && !IsSpace(s[1..][i]);
        assert s[i + 1] == s[1..][i];
      }
    } else {
      assert !IsSpace(s[0]);
    }
  }

  // ---------------------------------------------------------------------
  // Substring test, `pat in s`

  predicate Contains(s: string, pat: string)
    decreases |s|
  {
    pat <= s || (s != [] && Contains(s[1..], pat))
  }

  /** A string containing a pattern with a non-space character has one too. */
  lemma {:induction false} ContainsNonSpace(s: string, pat: string)
    requires Contains(s, pat) && HasNonSpace(pat)
    ensures HasNonSpace(s)
    decreases |s|
  {
    var j :| 0 <= j < |pat| && !IsSpace(pat[j]);
    if pat <= s {
      assert s[j] == pat[j];
    } else {
      ContainsNonSpace(s[1..], pat);
      var i :| 0 <= i < |s[1..]| && !IsSpace(s[1..][i]);
      assert s[i + 1] == s[1..][i];
    }
  }

  // ---------------------------------------------------------------------
  // `s.split(c)` and `sep.join(parts)`

  /** `s.split(c)` for a one-character separator: every separator starts a
      new part, so the result is never empty and may hold empty parts. */
  function Split(s: string, c: char): (parts: seq<string>)
    ensures |parts| >= 1
    ensures forall k :: 0 <= k < |parts| ==> c !in parts[k]
  {
    if s == [] then [[]]
    else
      var rest := Split(s[1..], c);
      if s[0] == c then [[]] + rest
      else [[s[0]] + rest[0]] + rest[1..]
  }

  /** `sep.join(parts)` */
  function Join(parts: seq<string>, sep: string): string
  {
    if |parts| == 0 then []
    else if |parts| == 1 then parts[0]
    else parts[0] + sep + Join(parts[1..], sep)
  }

  /** `[p + x for x in parts]` */
  function Prefixed(p: string, parts: seq<string>): (r: seq<string>)
  {
    seq(|parts|, k requires 0 <= k < |parts| => p + parts[k])
  }

  lemma PrefixedCons(p: string, x: string, t: seq<string>)
    ensures Prefixed(p, [x] + t) == [p + x] + Prefixed(p, t)
  {
    var l, r := Prefixed(p, [x] + t), [p + x] + Prefixed(p, t);
    assert |l| == |r|;
    forall k | 0 <= k < |l| ensures l[k] == r[k] {
      if k > 0 { assert ([x] + t)[k] == t[k - 1]; }
    }
  }

  /** Every occurrence of `c` in `s` replaced by `r`. */
  function Replace(s: string, c: char, r: string): string
  {
    if s == [] then []
    else (if s[0] == c then r else [s[0]]) + Replace(s[1..], c, r)
  }

  /** Text put before the first part of a join comes out before the join. */
  lemma JoinPrepend(x: string, parts: seq<string>, sep: string)
    requires |parts| >= 1
    ensures Join([x + parts[0]] + parts[1..], sep) == x + Join(parts, sep)
  {
    var ps := [x + parts[0]] + parts[1..];
    if |parts| > 1 {
      assert ps[1..] == parts[1..];
    }
  }

  /** Joining the parts of a split with the same separator gives the string
      back. */
  lemma {:induction false} SplitJoin(s: string, c: char)
    ensures Join(Split(s, c), [c]) == s
  {
    if s != [] {
      var rest := Split(s[1..], c);
      SplitJoin(s[1..], c);
      if s[0] == c {
        var ps := [[]] + rest;
        assert ps[1..] == rest;
        assert Join(ps, [c]) == [] + [c] + Join(rest, [c]);
      } else {
        JoinPrepend([s[0]], rest, [c]);
        assert s == [s[0]] + s[1..];
      }
    }
  }

  /** A part followed by the separator splits off as one part. */
  lemma {:induction false} SplitAfter(x: string, y: string, c: char)
    requires c !in x
    ensures Split(x + [c] + y, c) == [x] + Split(y, c)
  {
    if x == [] {
      assert ([c] + y)[1..] == y;
      assert x + [c] + y == [c] + y;
    } else {
      var s := x + [c] + y;
      assert s[1..] == x[1..] + [c] + y;
      SplitAfter(x[1..], y, c);
      assert [s[0]] + x[1..] == x;
    }
  }

  lemma {:induction false} SplitNoSeparator(x: string, c: char)
    requires c !in x
    ensures Split(x, c) == [x]
  {
    if x != [] {
      SplitNoSeparator(x[1..], c);
      assert [x[0]] + x[1..] == x;
    }
  }

  /** Splitting a join of separator-free parts gives the parts back. */
  lemma {:induction false} JoinSplit(parts: seq<string>, c: char)
    requires |parts| >= 1
    requires forall k :: 0 <= k < |parts| ==> c !in parts[k]
    ensures Split(Join(parts, [c]), c) == parts
  {
    if |parts| == 1 {
      SplitNoSeparator(parts[0], c);
    } else {
      JoinSplit(parts[1..], c);
      SplitAfter(parts[0], Join(parts[1..], [c]), c);
      assert [parts[0]] + parts[1..] == parts;
    }
  }

  lemma JoinPrefixedHead(p: string, t: seq<string>, sep: string)
    requires |t| >= 1
    ensures Join(Prefixed(p, t), sep) == p + Join([t[0]] + Prefixed(p, t[1..]), sep)
  {
    PrefixedCons(p, t[0], t[1..]);
    assert [t[0]] + t[1..] == t;
    var parts := [t[0]] + Prefixed(p, t[1..]);
    assert parts[0] == t[0] && parts[1..] == Prefixed(p, t[1..]);
    JoinPrepend(p, parts, sep);
  }

  /** Growing the first part of a split grows the prefixed join in place. */
  lemma JoinPrefixedExtend(p: string, a: string, t: seq<string>, sep: string)
    requires |t| >= 1
    ensures Join(Prefixed(p, [a + t[0]] + t[1..]), sep) == p + a + Join(Prefixed(p, t), sep)[|p|..]
  {
    var u := [a + t[0]] + t[1..];
    assert u[0] == a + t[0] && u[1..] == t[1..];
    JoinPrefixedHead(p, u, sep);
    JoinPrefixedHead(p, t, sep);
    var parts := [t[0]] + Prefixed(p, t[1..]);
    assert parts[0] == t[0] && parts[1..] == Prefixed(p, t[1..]);
    JoinPrepend(a, parts, sep);
  }

  /** An empty first part contributes only the prefix and a separator. */
  lemma JoinPrefixedEmptyHead(p: string, t: seq<string>, sep: string)
    requires |t| >= 1
    ensures Join(Prefixed(p, [[]] + t), sep) == p + sep + Join(Prefixed(p, t), sep)
  {
    PrefixedCons(p, [], t);
    assert p + [] == p;
    var ps := [p] + Prefixed(p, t);
    assert ps[1..] == Prefixed(p, t);
  }

  /** Joining the prefixed parts of a split is the same as writing the prefix
      once and replacing each separator by `sep` followed by the prefix. */
  lemma {:induction false} JoinPrefixedSplit(s: string, c: char, p: string, sep: string)
    ensures Join(Prefixed(p, Split(s, c)), sep) == p + Replace(s, c, sep + p)
  {
    if s == [] {
      assert p + [] == p;
      assert Prefixed(p, [[]])[0] == p;
    } else {
      JoinPrefixedSplit(s[1..], c, p, sep);
      JoinPrefixedSplitStep(s, c, p, sep);
    }
  }

  lemma JoinPrefixedSplitStep(s: string, c: char, p: string, sep: string)
    requires s != []
    requires Join(Prefixed(p, Split(s[1..], c)), sep) == p + Replace(s[1..], c, sep + p)
    ensures Join(Prefixed(p, Split(s, c)), sep) == p + Replace(s, c, sep + p)
  {
    if s[0] == c {
      JoinPrefixedSplitSeparator(s, c, p, sep);
    } else {
      JoinPrefixedSplitOther(s, c, p, sep);
    }
  }

  lemma JoinPrefixedSplitSeparator(s: string, c: char, p: string, sep: string)
    requires s != [] && s[0] == c
    requires Join(Prefixed(p, Split(s[1..], c)), sep) == p + Replace(s[1..], c, sep + p)
    ensures Join(Prefixed(p, Split(s, c)), sep) == p + Replace(s, c, sep + p)
  {
    var rest := Split(s[1..], c);
    assert Split(s, c) == [[]] + rest;
    assert Replace(s, c, sep + p) == sep + p + Replace(s[1..], c, sep + p);
    JoinPrefixedEmptyHead(p, rest, sep);
  }

  lemma JoinPrefixedSplitOther(s: string, c: char, p: string, sep: string)
    requires s != [] && s[0] != c
    requires Join(Prefixed(p, Split(s[1..], c)), sep) == p + Replace(s[1..], c, sep + p)
    ensures Join(Prefixed(p, Split(s, c)), sep) == p + Replace(s, c, sep + p)
  {
    var rest := Split(s[1..], c);
    var tail := Replace(s[1..], c, sep + p);
    assert Split(s, c) == [[s[0]] + rest[0]] + rest[1..];
    assert Replace(s, c, sep + p) == [s[0]] + tail;
    JoinPrefixedExtend(p, [s[0]], rest, sep);
    assert (p + tail)[|p|..] == tail;
  }

  /** Lower-casing commutes with replacing a character that is not a letter. */
  lemma {:induction false} LowerReplace(s: string, c: char, r: string)
    requires !IsUpperChar(c) && !IsLowerChar(c)
    ensures Lower(Replace(s, c, r)) == Replace(Lower(s), c, Lower(r))
  {
    if s != [] {
      LowerReplace(s[1..], c, r);
      var head := if s[0] == c then r else [s[0]];
      LowerAppend(head, Replace(s[1..], c, r));
      assert Lower(s)[1..] == Lower(s[1..]);
    }
  }

  /** Replacing a non-letter keeps every upper-case letter of the string. */
  lemma {:induction false} ReplaceKeepsUpper(s: string, c: char, r: string)
    requires HasUpper(s) && !IsUpperChar(c)
    ensures HasUpper(Replace(s, c, r))
  {
    var head := if s[0] == c then r else [s[0]];
    var tail := Replace(s[1..], c, r);
    if IsUpperChar(s[0]) {
      assert (head + tail)[0] == s[0];
    } else {
      var i :| 0 <= i < |s| && IsUpperChar(s[i]);
      assert s[1..][i - 1] == s[i];
      ReplaceKeepsUpper(s[1..], c, r);
      var j :| 0 <= j < |tail| && IsUpperChar(tail[j]);
      assert (head + tail)[|head| + j] == tail[j];
    }
  }
}
