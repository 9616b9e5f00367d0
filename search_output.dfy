/** The parser the `/search` handler applies to the external tool's output
    (index.js): the output is trimmed and split into lines, each line is split
    on `|` into id, title, duration and thumbnail, and records without an id
    or a title are dropped. */
module SearchOutput {
  import opened Wrappers
  import opened JsText

  /** One search result as the handler builds it. A field the line does not
      have is `undefined` in the source: `None` here. The id is the first
      piece of the split, which always exists. */
  datatype SearchResult = SearchResult(
    id: string,
    title: Option<string>,
    duration: Option<string>,
    thumbnail: Option<string>)

  /** Array destructuring `[a, b, c, d] = pieces`: the `k`-th piece, if any. */
  function Field(pieces: seq<string>, k: nat): (f: Option<string>)
    ensures f.Some? <==> k < |pieces|
    ensures f.Some? ==> f.value == pieces[k]
  {
    if k < |pieces| then Some(pieces[k]) else None
  }

  /** One line of output, split on `|`; pieces after the fourth are ignored. */
  function ParseLine(line: string): (r: SearchResult)
    ensures !Contains(r.id, "|")
    ensures r.title.Some? ==> !Contains(r.title.value, "|")
    ensures r.title.None? <==> !Contains(line, "|")
    ensures r.duration.Some? ==> r.title.Some?
    ensures r.thumbnail.Some? ==> r.duration.Some?
  {
    var pieces := Split(line, "|");
    SearchResult(pieces[0], Field(pieces, 1), Field(pieces, 2), Field(pieces, 3))
  }

  /** JavaScript truthiness of a string that may be `undefined`: only
      `undefined` and the empty string are falsy. */
  predicate Truthy(v: Option<string>)
  {
    v.Some? && v.value != ""
  }

  /** The filter `result.id && result.title`: both are non-empty strings. */
  predicate Keep(r: SearchResult)
    ensures Keep(r) <==> Truthy(Some(r.id)) && Truthy(r.title)
  {
    r.id != "" && r.title.Some? && r.title.value != ""
  }

  /** `lines.map(ParseLine).filter(Keep)`. Every record kept has a non-empty
      id and title, neither of which contains `|`. */
  function ParseLines(lines: seq<string>): (rs: seq<SearchResult>)
    ensures |rs| <= |lines|
    ensures forall k :: 0 <= k < |rs| ==>
              Keep(rs[k]) && !Contains(rs[k].id, "|") && !Contains(rs[k].title.value, "|")
  {
    if lines == [] then []
    else
      var r := ParseLine(lines[0]);
      (if Keep(r) then [r] else []) + ParseLines(lines[1..])
  }

  /** The whole parse of the tool's standard output. */
  function ParseSearchOutput(stdout: string): (rs: seq<SearchResult>)
    ensures |rs| <= |Split(Trim(stdout), "\n")|
    ensures forall k :: 0 <= k < |rs| ==> Keep(rs[k])
  {
    ParseLines(Split(Trim(stdout), "\n"))
  }

  // ---------------------------------------------------------------------------
  // Which lines survive, in which order
  // ---------------------------------------------------------------------------

  /** The indices, from `from` on, of the lines whose record is kept, in
      increasing order: an independent statement of which lines the filter
      lets through. */
  function KeptIndices(lines: seq<string>, from: nat): (ks: seq<nat>)
    requires from <= |lines|
    ensures forall a :: 0 <= a < |ks| ==> from <= ks[a] < |lines| && Keep(ParseLine(lines[ks[a]]))
    ensures forall a, b :: 0 <= a < b < |ks| ==> ks[a] < ks[b]
    decreases |lines| - from
  {
    if from == |lines| then []
    else (if Keep(ParseLine(lines[from])) then [from] else []) + KeptIndices(lines, from + 1)
  }

  /** No kept line is missing from the indices. */
  lemma {:induction false} KeptIndicesComplete(lines: seq<string>, from: nat, i: nat)
    requires from <= i < |lines| && Keep(ParseLine(lines[i]))
    ensures i in KeptIndices(lines, from)
    decreases |lines| - from
  {
    var head := if Keep(ParseLine(lines[from])) then [from] else [];
    assert KeptIndices(lines, from) == head + KeptIndices(lines, from + 1);
    if from < i {
      KeptIndicesComplete(lines, from + 1, i);
    } else {
      assert head == [i];
    }
  }

  /** The records of the parse are exactly the records of the kept lines, in
      the order of those lines. */
  lemma ParseLinesAreKeptLines(lines: seq<string>)
    ensures |ParseLines(lines)| == |KeptIndices(lines, 0)|
    ensures forall a :: 0 <= a < |ParseLines(lines)| ==>
              ParseLines(lines)[a] == ParseLine(lines[KeptIndices(lines, 0)[a]])
  {
    ParseSuffixIsKept(lines, 0);
    assert lines[0..] == lines;
  }

  lemma {:induction false} ParseSuffixIsKept(lines: seq<string>, from: nat)
    requires from <= |lines|
    ensures |ParseLines(lines[from..])| == |KeptIndices(lines, from)|
    ensures forall a :: 0 <= a < |ParseLines(lines[from..])| ==>
              ParseLines(lines[from..])[a] == ParseLine(lines[KeptIndices(lines, from)[a]])
    decreases |lines| - from
  {
    if from < |lines| {
      assert lines[from..][1..] == lines[from + 1..];
      assert lines[from..][0] == lines[from];
      ParseSuffixIsKept(lines, from + 1);
      var r := ParseLine(lines[from]);
      var rest, ks := ParseLines(lines[from + 1..]), KeptIndices(lines, from + 1);
      var all, kall := ParseLines(lines[from..]), KeptIndices(lines, from);
      if Keep(r) {
        assert all == [r] + rest;
        assert kall == [from] + ks;
        forall a | 0 <= a < |all| ensures all[a] == ParseLine(lines[kall[a]]) {
          if a > 0 {
            assert all[a] == rest[a - 1] && kall[a] == ks[a - 1];
          }
        }
      } else {
        assert all == rest;
        assert kall == ks;
      }
    }
  }

  /** A kept record's id and title come from a single line of the output:
      neither contains a line feed. */
  lemma ResultsStayOnOneLine(stdout: string)
    ensures forall k :: 0 <= k < |ParseSearchOutput(stdout)| ==>
              !Contains(ParseSearchOutput(stdout)[k].id, "\n")
              && !Contains(ParseSearchOutput(stdout)[k].title.value, "\n")
  {
    var lines := Split(Trim(stdout), "\n");
    ParseLinesAreKeptLines(lines);
    var ks := KeptIndices(lines, 0);
    forall a | 0 <= a < |ks|
      ensures !Contains(ParseLine(lines[ks[a]]).id, "\n")
      ensures ParseLine(lines[ks[a]]).title.Some? ==> !Contains(ParseLine(lines[ks[a]]).title.value, "\n")
    {
      SplitPiecesAvoid(lines[ks[a]], "|", "\n");
    }
  }

  // ---------------------------------------------------------------------------
  // Lines in the print format `id|title|duration|thumbnail`
  // ---------------------------------------------------------------------------

  /** A line made of `|`-free fields joined with `|` parses back to those
      fields: the first four, with `None` for those the line lacks. */
  lemma ParseJoinedLine(fields: seq<string>)
    requires |fields| >= 1
    requires forall k :: 0 <= k < |fields| ==> '|' !in fields[k]
    ensures ParseLine(Join(fields, "|")) ==
              SearchResult(fields[0], Field(fields, 1), Field(fields, 2), Field(fields, 3))
  {
    forall k | 0 <= k < |fields| ensures SeparatesCleanly(fields[k], "|") {
      ContainsChar(fields[k], '|');
      NoContainsCleanly(fields[k], "|");
    }
    SplitJoin(fields, "|");
  }

  /** The line the print template produces for a result with all four
      fields parses to exactly those fields. */
  lemma ParseFullLine(id: string, title: string, duration: string, thumbnail: string)
    requires '|' !in id && '|' !in title && '|' !in duration && '|' !in thumbnail
    ensures ParseLine(id + "|" + title + "|" + duration + "|" + thumbnail)
              == SearchResult(id, Some(title), Some(duration), Some(thumbnail))
  {
    var fields := [id, title, duration, thumbnail];
    assert Join(fields[3..], "|") == thumbnail;
    assert Join(fields[2..], "|") == duration + "|" + thumbnail by {
      assert fields[2..][1..] == fields[3..];
    }
    assert Join(fields[1..], "|") == title + "|" + duration + "|" + thumbnail by {
      assert fields[1..][1..] == fields[2..];
    }
    assert Join(fields, "|") == id + "|" + title + "|" + duration + "|" + thumbnail;
    ParseJoinedLine(fields);
  }

  lemma ExampleLineParses()
    ensures ParseLine("abc12345678|My Title|3:45|http://thumb")
              == SearchResult("abc12345678", Some("My Title"), Some("3:45"), Some("http://thumb"))
  {
    ExampleLine();
    ParseFullLine("abc12345678", "My Title", "3:45", "http://thumb");
  }

  lemma ExampleLine()
    ensures "abc12345678|My Title|3:45|http://thumb"
            == "abc12345678" + "|" + "My Title" + "|" + "3:45" + "|" + "http://thumb"
  {
  }

  /** A line with a fifth field, as a title that itself contains `|`
      produces: the fields after the title shift by one and the last is lost. */
  lemma ParseLineWithExtraField(id: string, t0: string, t1: string, duration: string, thumbnail: string)
    requires '|' !in id && '|' !in t0 && '|' !in t1 && '|' !in duration && '|' !in thumbnail
    ensures ParseLine(id + "|" + t0 + "|" + t1 + "|" + duration + "|" + thumbnail)
              == SearchResult(id, Some(t0), Some(t1), Some(duration))
  {
    var fields := [id, t0, t1, duration, thumbnail];
    assert Join(fields[4..], "|") == thumbnail;
    assert Join(fields[3..], "|") == duration + "|" + thumbnail by {
      assert fields[3..][1..] == fields[4..];
    }
    assert Join(fields[2..], "|") == t1 + "|" + duration + "|" + thumbnail by {
      assert fields[2..][1..] == fields[3..];
    }
    assert Join(fields[1..], "|") == t0 + "|" + t1 + "|" + duration + "|" + thumbnail by {
      assert fields[1..][1..] == fields[2..];
    }
    assert Join(fields, "|") == id + "|" + t0 + "|" + t1 + "|" + duration + "|" + thumbnail;
    ParseJoinedLine(fields);
  }

  /** The title "Live | Part 2" is cut at the bar: the rest of it becomes the
      duration and the duration becomes the thumbnail. */
  lemma ExampleTitleWithBarShifts()
    ensures ParseLine("abc12345678|Live | Part 2|3:45|http://thumb")
              == SearchResult("abc12345678", Some("Live "), Some(" Part 2"), Some("3:45"))
  {
    TitleWithBarLine();
    ParseLineWithExtraField("abc12345678", "Live ", " Part 2", "3:45", "http://thumb");
  }

  lemma TitleWithBarLine()
    ensures "abc12345678|Live | Part 2|3:45|http://thumb"
            == "abc12345678" + "|" + "Live " + "|" + " Part 2" + "|" + "3:45" + "|" + "http://thumb"
  {
  }

  /** A line with an empty title field is dropped. */
  lemma ExampleEmptyTitleDropped()
    ensures !Keep(ParseLine("abc12345678||3:45|http://thumb"))
  {
    EmptyTitleLine();
    ParseFullLine("abc12345678", "", "3:45", "http://thumb");
  }

  lemma EmptyTitleLine()
    ensures "abc12345678||3:45|http://thumb"
            == "abc12345678" + "|" + "" + "|" + "3:45" + "|" + "http://thumb"
  {
  }

  /** A line without any `|` has no title and is dropped. */
  lemma LineWithoutBarDropped(line: string)
    requires '|' !in line
    ensures !Keep(ParseLine(line))
  {
    ContainsChar(line, '|');
  }

  /** Output that is empty or only white space yields no results (and no
      error). */
  lemma BlankOutputYieldsNothing(stdout: string)
    requires AllSpace(stdout)
    ensures ParseSearchOutput(stdout) == []
  {
    assert Trim(stdout) == "";
    assert Find("", "\n") == None;
    assert Find("", "|") == None;
  }
}
