/** The two input checks of the HTTP handlers (index.js): the video-id
    format check and the search-query check. */
module Validators {
  import opened Wrappers
  import opened JsText

  /** A member of the regular-expression class `[a-zA-Z0-9_-]`. */
  predicate IsIdChar(c: char)
    // Every member is ASCII, and none separates or names a path component.
    ensures IsIdChar(c) ==> c <= '\U{7F}' && c != '/' && c != '\\' && c != '.' && c != ':'
    ensures IsIdChar(c) ==> !IsJsSpace(c)
  {
    ('a' <= c <= 'z') || ('A' <= c <= 'Z') || ('0' <= c <= '9') || c == '_' || c == '-'
  }

  /** The anchored pattern `^[a-zA-Z0-9_-]{n}$`, matched one character at a
      time: `s` is exactly `n` characters, each in the class. */
  function MatchesIdClass(s: string, n: nat): (b: bool)
    ensures b <==> |s| == n && forall k :: 0 <= k < |s| ==> IsIdChar(s[k])
    decreases n
  {
    if n == 0 then s == []
    else
      assert forall k :: 1 <= k < |s| ==> s[k] == s[1..][k - 1];
      s != [] && IsIdChar(s[0]) && MatchesIdClass(s[1..], n - 1)
  }

  /** `validateVideoId`: exactly eleven characters, each an ASCII letter, a
      digit, `_` or `-`. */
  function ValidateVideoId(id: string): (ok: bool)
    ensures ok <==> |id| == 11 && forall k :: 0 <= k < |id| ==> IsIdChar(id[k])
  {
    MatchesIdClass(id, 11)
  }

  /** A string of the wrong length, or one holding a space or a slash, is
      never a valid id. */
  lemma VideoIdRejects(id: string)
    requires |id| != 11 || ' ' in id || '/' in id
    ensures !ValidateVideoId(id)
  {
  }

  /** A valid id holds no character that could leave the server's directory
      when it becomes part of a file name. */
  lemma VideoIdIsPathSafe(id: string)
    requires ValidateVideoId(id)
    ensures '/' !in id && '\\' !in id && '.' !in id && ':' !in id
  {
  }

  /** `validateQuery`: the query parameter is present and non-empty, and its
      trimmed text is not empty and at most 100 UTF-16 code units long. */
  function ValidateQuery(q: Option<string>): (ok: bool)
    ensures ok <==> q.Some? && !AllSpace(q.value) && Utf16Length(Trim(q.value)) <= 100
  {
    q.Some? && q.value != ""
    && Utf16Length(Trim(q.value)) > 0 && Utf16Length(Trim(q.value)) <= 100
  }

  /** Missing, empty and white-space-only queries are rejected. */
  lemma QueryRejectsBlank(q: Option<string>)
    requires q.None? || AllSpace(q.value)
    ensures !ValidateQuery(q)
  {
  }

  /** A query whose trimmed text is longer than 100 characters is rejected. */
  lemma QueryRejectsLong(s: string)
    requires |Trim(s)| > 100
    ensures !ValidateQuery(Some(s))
  {
  }

  /** Surrounding white space does not count toward the limit: a query is
      judged by its trimmed text alone. */
  lemma QueryIgnoresPadding(pre: string, s: string, post: string)
    requires AllSpace(pre) && AllSpace(post)
    requires s != [] ==> !IsJsSpace(s[0]) && !IsJsSpace(s[|s| - 1])
    ensures ValidateQuery(Some(pre + s + post)) <==> s != [] && Utf16Length(s) <= 100
  {
    TrimPadded(pre, s, post);
    if s == [] {
      assert AllSpace(pre + s + post);
    } else {
      assert !IsJsSpace((pre + s + post)[|pre|]);
    }
  }

  /** Between 1 and 100 characters of the Basic Multilingual Plane, with no
      white space at either end, is accepted. */
  lemma QueryAcceptsShort(s: string)
    requires 1 <= |s| <= 100 && !IsJsSpace(s[0]) && !IsJsSpace(s[|s| - 1])
    requires forall k :: 0 <= k < |s| ==> s[k] <= '\U{FFFF}'
    ensures ValidateQuery(Some(s))
  {
    LeadingSpaceIs(s, 0);
    TrailingSpaceIs(s, 0);
    assert s[0..|s|] == s;
    assert Trim(s) == s;
  }

  /** The limit counts UTF-16 code units, not characters: 51 characters from
      outside the Basic Multilingual Plane are 102 code units and are refused. */
  lemma QueryLimitCountsCodeUnits(s: string)
    requires |s| == 51 && forall k :: 0 <= k < |s| ==> s[k] == '\U{1F600}'
    ensures !ValidateQuery(Some(s))
  {
    TrimPadded([], s, []);
    assert [] + s + [] == s;
    Utf16LengthAstral(s);
  }

  lemma {:induction false} Utf16LengthAstral(s: string)
    requires forall k :: 0 <= k < |s| ==> s[k] > '\U{FFFF}'
    ensures Utf16Length(s) == 2 * |s|
  {
    if s != [] {
      Utf16LengthAstral(s[1..]);
    }
  }
}
