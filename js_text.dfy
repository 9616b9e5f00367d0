/** The JavaScript string operations the backend relies on, stated over
    `seq<char>`: `String.prototype.trim`, `String.prototype.split` with a
    non-empty string separator, `Array.prototype.join` on strings, and the
    UTF-16 code-unit count that `.length` reports. */
module JsText {
  import opened Wrappers

  // ---------------------------------------------------------------------------
  // trim
  // ---------------------------------------------------------------------------

  /** The characters `trim` removes: ECMAScript WhiteSpace (tab, vertical tab,
      form feed, space, no-break space, the byte-order mark and every other
      Unicode "Zs" space) and LineTerminator (LF, CR, line and paragraph
      separators). U+0085 and U+180E are not among them. */
  predicate IsJsSpace(c: char)
    // Among ASCII characters, exactly the C-locale white space of `isspace`.
    ensures c <= '\U{7F}' ==> (IsJsSpace(c) <==> c == ' ' || '\t' <= c <= '\r')
    // No white space lies beyond the byte-order mark.
    ensures IsJsSpace(c) ==> c <= '\U{FEFF}'
  {
    c == '\t' || c == '\n' || c == '\U{B}' || c == '\U{C}' || c == '\r' || c == ' '
    || c == '\U{A0}' || c == '\U{1680}' || ('\U{2000}' <= c <= '\U{200A}')
    || c == '\U{2028}' || c == '\U{2029}' || c == '\U{202F}' || c == '\U{205F}'
    || c == '\U{3000}' || c == '\U{FEFF}'
  }

  predicate AllSpace(s: string)
  {
    forall k :: 0 <= k < |s| ==> IsJsSpace(s[k])
  }

  /** The length of the run of white space that starts `s`. */
  function LeadingSpace(s: string): (n: nat)
    ensures n <= |s|
    ensures forall k :: 0 <= k < n ==> IsJsSpace(s[k])
    ensures n < |s| ==> !IsJsSpace(s[n])
    decreases |s|
  {
    if s != [] && IsJsSpace(s[0]) then
      var m := LeadingSpace(s[1..]);
      assert forall k :: 1 <= k < 1 + m ==> s[k] == s[1..][k - 1];
      1 + m
    else 0
  }

  /** The length of the run of white space that ends `s`. */
  function TrailingSpace(s: string): (n: nat)
    ensures n <= |s|
    ensures forall k :: |s| - n <= k < |s| ==> IsJsSpace(s[k])
    ensures n < |s| ==> !IsJsSpace(s[|s| - 1 - n])
    decreases |s|
  {
    if s != [] && IsJsSpace(s[|s| - 1]) then
      var m := TrailingSpace(s[..|s| - 1]);
      assert forall k :: |s| - 1 - m <= k < |s| - 1 ==> s[k] == s[..|s| - 1][k];
      1 + m
    else 0
  }

  /** `trim`: the slice of `s` left after removing the white space at both
      ends; it is empty exactly when `s` is all white space. */
  function Trim(s: string): (r: string)
    ensures exists i :: OccursAt(s, r, i)
                        && (forall k :: 0 <= k < i ==> IsJsSpace(s[k]))
                        && (forall k :: i + |r| <= k < |s| ==> IsJsSpace(s[k]))
    ensures r != [] ==> !IsJsSpace(r[0]) && !IsJsSpace(r[|r| - 1])
    ensures r == [] <==> AllSpace(s)
  {
    var a := LeadingSpace(s);
    if a == |s| then
      assert OccursAt(s, [], a);
      []
    else
      var b := TrailingSpace(s);
      assert a < |s| - b;
      var r := s[a..|s| - b];
      assert r[0] == s[a] && r[|r| - 1] == s[|s| - 1 - b];
      assert OccursAt(s, r, a);
      r
  }

  /** White space around a string whose ends are not white space is exactly
      what `trim` takes away. */
  lemma TrimPadded(pre: string, s: string, post: string)
    requires AllSpace(pre) && AllSpace(post)
    requires s != [] ==> !IsJsSpace(s[0]) && !IsJsSpace(s[|s| - 1])
    ensures Trim(pre + s + post) == s
  {
    var x := pre + s + post;
    if s == [] {
      assert x == pre + post;
      forall k | 0 <= k < |x| ensures IsJsSpace(x[k]) {
        assert x[k] == if k < |pre| then pre[k] else post[k - |pre|];
      }
    } else {
      PaddedEnds(pre, s, post);
      assert x[|pre|..|x| - |post|] == s;
    }
  }

  /** The white-space runs at the ends of a padded string are the padding. */
  lemma PaddedEnds(pre: string, s: string, post: string)
    requires AllSpace(pre) && AllSpace(post)
    requires s != [] && !IsJsSpace(s[0]) && !IsJsSpace(s[|s| - 1])
    ensures LeadingSpace(pre + s + post) == |pre|
    ensures TrailingSpace(pre + s + post) == |post|
  {
    var x := pre + s + post;
    assert x[|pre|] == s[0] && x[|pre| + |s| - 1] == s[|s| - 1];
    forall k | 0 <= k < |pre| ensures IsJsSpace(x[k]) {
      assert x[k] == pre[k];
    }
    LeadingSpaceIs(x, |pre|);
    forall k | |x| - |post| <= k < |x| ensures IsJsSpace(x[k]) {
      assert x[k] == post[k - |pre| - |s|];
    }
    TrailingSpaceIs(x, |post|);
  }

  /** The three facts `LeadingSpace` ensures determine it. */
  lemma LeadingSpaceIs(s: string, n: nat)
    requires n <= |s| && forall k :: 0 <= k < n ==> IsJsSpace(s[k])
    requires n < |s| ==> !IsJsSpace(s[n])
    ensures LeadingSpace(s) == n
  {
    var m := LeadingSpace(s);
    assert m < |s| ==> !IsJsSpace(s[m]);
  }

  /** The three facts `TrailingSpace` ensures determine it. */
  lemma TrailingSpaceIs(s: string, n: nat)
    requires n <= |s| && forall k :: |s| - n <= k < |s| ==> IsJsSpace(s[k])
    requires n < |s| ==> !IsJsSpace(s[|s| - 1 - n])
    ensures TrailingSpace(s) == n
  {
    var m := TrailingSpace(s);
    assert m < |s| ==> !IsJsSpace(s[|s| - 1 - m]);
  }

  // ---------------------------------------------------------------------------
  // split and join with a string separator
  // ---------------------------------------------------------------------------

  /** `sep` occurs in `s` starting at index `i`. */
  predicate OccursAt(s: string, sep: string, i: int)
  {
    0 <= i && i + |sep| <= |s| && s[i..i + |sep|] == sep
  }

  predicate Contains(s: string, sep: string)
  {
    exists i | 0 <= i <= |s| :: OccursAt(s, sep, i)
  }

  /** `indexOf`: the first occurrence of a non-empty `sep` in `s`, if any. */
  function Find(s: string, sep: string): (r: Option<nat>)
    requires |sep| > 0
    ensures r.Some? ==> OccursAt(s, sep, r.value)
    ensures r.Some? ==> forall i :: 0 <= i < r.value ==> !OccursAt(s, sep, i)
    ensures r.None? <==> !Contains(s, sep)
    decreases |s|
  {
    if |s| < |sep| then None
    else if s[..|sep|] == sep then Some(0)
    else
      assert s[0..|sep|] == s[..|sep|];
      var rest := Find(s[1..], sep);
      OccursShift(s, sep);
      match rest
      case None => None
      case Some(k) => Some(k + 1)
  }

  lemma OccursShift(s: string, sep: string)
    requires |s| > 0
    ensures forall i :: 1 <= i ==> (OccursAt(s, sep, i) <==> OccursAt(s[1..], sep, i - 1))
  {
    forall i | 1 <= i ensures OccursAt(s, sep, i) <==> OccursAt(s[1..], sep, i - 1) {
      if i + |sep| <= |s| {
        assert s[1..][i - 1..i - 1 + |sep|] == s[i..i + |sep|];
      }
    }
  }

  /** `s.split(sep)`: the pieces between successive first occurrences of
      `sep`; there is always at least one piece, and no piece contains `sep`. */
  function Split(s: string, sep: string): (r: seq<string>)
    requires |sep| > 0
    ensures |r| >= 1
    ensures forall k :: 0 <= k < |r| ==> !Contains(r[k], sep)
    decreases |s|
  {
    match Find(s, sep)
    case None => [s]
    case Some(i) =>
      NoEarlierOccurrence(s, sep, i);
      [s[..i]] + Split(s[i + |sep|..], sep)
  }

  lemma NoEarlierOccurrence(s: string, sep: string, i: nat)
    requires |sep| > 0 && i <= |s|
    requires forall j :: 0 <= j < i ==> !OccursAt(s, sep, j)
    ensures !Contains(s[..i], sep)
  {
    forall j | 0 <= j <= i ensures !OccursAt(s[..i], sep, j) {
      if j + |sep| <= i {
        assert s[..i][j..j + |sep|] == s[j..j + |sep|];
        assert !OccursAt(s, sep, j);
      }
    }
  }

  /** `pieces.join(sep)`: empty for no pieces, otherwise it begins with the
      first piece. */
  function Join(pieces: seq<string>, sep: string): (r: string)
    ensures |pieces| == 0 ==> r == ""
    ensures |pieces| >= 1 ==> pieces[0] <= r
  {
    if |pieces| == 0 then ""
    else if |pieces| == 1 then pieces[0]
    else pieces[0] + sep + Join(pieces[1..], sep)
  }

  /** Joining the pieces of a split with the same separator gives back the
      original string. */
  lemma {:induction false} JoinSplit(s: string, sep: string)
    requires |sep| > 0
    ensures Join(Split(s, sep), sep) == s
    decreases |s|
  {
    match Find(s, sep)
    case None =>
    case Some(i) =>
      var rest := Split(s[i + |sep|..], sep);
      JoinSplit(s[i + |sep|..], sep);
      assert Split(s, sep) == [s[..i]] + rest;
      assert ([s[..i]] + rest)[1..] == rest;
      assert s == s[..i] + s[i..i + |sep|] + s[i + |sep|..];
  }

  /** Joining one more piece appends the separator and that piece. */
  lemma {:induction false} JoinAppend(pieces: seq<string>, p: string, sep: string)
    requires |pieces| >= 1
    ensures Join(pieces + [p], sep) == Join(pieces, sep) + sep + p
    decreases |pieces|
  {
    if |pieces| > 1 {
      assert (pieces + [p])[1..] == pieces[1..] + [p];
      JoinAppend(pieces[1..], p, sep);
    }
  }

  /** The first occurrence of `sep` in `p + sep` is the appended one. This is
      what a piece must satisfy for `split` to undo `join`. */
  predicate SeparatesCleanly(p: string, sep: string)
  {
    forall i :: 0 <= i < |p| ==> !OccursAt(p + sep, sep, i)
  }

  /** A separator whose first character does not occur again inside it (every
      single character, and "; ") separates cleanly every piece that does not
      contain it. */
  lemma NoContainsCleanly(p: string, sep: string)
    requires |sep| > 0 && sep[0] !in sep[1..]
    requires !Contains(p, sep)
    ensures SeparatesCleanly(p, sep)
  {
    forall i | 0 <= i < |p| ensures !OccursAt(p + sep, sep, i) {
      if i + |sep| <= |p| {
        assert (p + sep)[i..i + |sep|] == p[i..i + |sep|];
        assert !OccursAt(p, sep, i);
      } else if i + |sep| <= |p + sep| {
        var d := |p| - i;
        assert (p + sep)[i..i + |sep|][d] == (p + sep)[|p|] == sep[0];
        assert sep[d] == sep[1..][d - 1] != sep[0];
      }
    }
  }

  lemma FindAfterCleanPiece(p: string, sep: string, rest: string)
    requires |sep| > 0 && SeparatesCleanly(p, sep)
    ensures Find(p + sep + rest, sep) == Some(|p|)
  {
    var s := p + sep + rest;
    assert s[|p|..|p| + |sep|] == sep;
    assert OccursAt(s, sep, |p|);
    forall i | 0 <= i < |p| ensures !OccursAt(s, sep, i) {
      if i + |sep| <= |s| {
        assert s[i..i + |sep|] == (p + sep)[i..i + |sep|];
        assert !OccursAt(p + sep, sep, i);
      }
    }
  }

  lemma CleanNoContains(p: string, sep: string)
    requires |sep| > 0 && SeparatesCleanly(p, sep)
    ensures !Contains(p, sep)
  {
    forall i | 0 <= i <= |p| ensures !OccursAt(p, sep, i) {
      if i + |sep| <= |p| {
        assert (p + sep)[i..i + |sep|] == p[i..i + |sep|];
        assert !OccursAt(p + sep, sep, i);
      }
    }
  }

  /** Splitting a join gives back the pieces, provided each piece separates
      cleanly (in particular, contains no separator). */
  lemma {:induction false} SplitJoin(pieces: seq<string>, sep: string)
    requires |sep| > 0 && |pieces| >= 1
    requires forall k :: 0 <= k < |pieces| ==> SeparatesCleanly(pieces[k], sep)
    ensures Split(Join(pieces, sep), sep) == pieces
    decreases |pieces|
  {
    if |pieces| == 1 {
      CleanNoContains(pieces[0], sep);
    } else {
      var p, rest := pieces[0], Join(pieces[1..], sep);
      FindAfterCleanPiece(p, sep, rest);
      var s := p + sep + rest;
      assert Join(pieces, sep) == s;
      assert s[..|p|] == p;
      assert s[|p| + |sep|..] == rest;
      assert Split(s, sep) == [p] + Split(rest, sep);
      assert forall k :: 0 <= k < |pieces| - 1 ==> pieces[1..][k] == pieces[k + 1];
      SplitJoin(pieces[1..], sep);
      assert pieces == [p] + pieces[1..];
    }
  }

  /** A slice of a string without `other` does not contain `other` either. */
  lemma SliceAvoids(s: string, other: string, i: nat, j: nat)
    requires |other| > 0 && i <= j <= |s| && !Contains(s, other)
    ensures !Contains(s[i..j], other)
  {
    forall a | 0 <= a <= j - i ensures !OccursAt(s[i..j], other, a) {
      if a + |other| <= j - i {
        var u, v := s[i..j][a..a + |other|], s[i + a..i + a + |other|];
        forall k | 0 <= k < |other| ensures u[k] == v[k] {
          assert u[k] == s[i + a + k];
        }
        assert u == v;
        assert !OccursAt(s, other, i + a);
      }
    }
  }

  /** Every piece of a split is a slice of the input, so it avoids whatever
      the input avoids. */
  lemma {:induction false} SplitPiecesAvoid(s: string, sep: string, other: string)
    requires |sep| > 0 && |other| > 0 && !Contains(s, other)
    ensures forall k :: 0 <= k < |Split(s, sep)| ==> !Contains(Split(s, sep)[k], other)
    decreases |s|
  {
    match Find(s, sep)
    case None =>
    case Some(i) =>
      SliceAvoids(s, other, 0, i);
      assert s[0..i] == s[..i];
      SliceAvoids(s, other, i + |sep|, |s|);
      assert s[i + |sep|..|s|] == s[i + |sep|..];
      SplitPiecesAvoid(s[i + |sep|..], sep, other);
  }

  /** For a one-character separator, containment is membership. */
  lemma ContainsChar(s: string, c: char)
    ensures Contains(s, [c]) <==> c in s
  {
    forall i | 0 <= i < |s| ensures OccursAt(s, [c], i) <==> s[i] == c {
      assert s[i..i + 1] == [s[i]];
    }
  }

  // ---------------------------------------------------------------------------
  // .length
  // ---------------------------------------------------------------------------

  /** The `.length` of a JavaScript string: its number of UTF-16 code units;
      a character outside the Basic Multilingual Plane takes two. */
  function Utf16Length(s: string): (n: nat)
    ensures |s| <= n <= 2 * |s|
    ensures n == |s| <==> forall k :: 0 <= k < |s| ==> s[k] <= '\U{FFFF}'
  {
    if s == [] then 0
    else (if s[0] <= '\U{FFFF}' then 1 else 2) + Utf16Length(s[1..])
  }
}
