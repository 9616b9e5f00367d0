/** The cookie header string of get-cookies.js: the entries of a name to
    value map, in insertion order, written `name=value` and joined with
    "; ". */
module CookieHeader {
  import opened JsText

  /** One entry of the cookie map. A JavaScript object keeps string keys
      that are not array indices in insertion order, so the map is a
      sequence of entries. */
  datatype Cookie = Cookie(name: string, value: string)

  const Separator := "; "

  /** `${key}=${value}`: name and value inserted verbatim around `=`. */
  function Entry(c: Cookie): (e: string)
    ensures |e| == |c.name| + 1 + |c.value|
    ensures e[..|c.name|] == c.name && e[|c.name|] == '='
    ensures e[|c.name| + 1..] == c.value
  {
    c.name + "=" + c.value
  }

  function Entries(cs: seq<Cookie>): seq<string>
  {
    seq(|cs|, k requires 0 <= k < |cs| => Entry(cs[k]))
  }

  /** `Object.entries(cookies).map(...).join('; ')`. It is empty exactly when
      there are no cookies. */
  function CookieString(cs: seq<Cookie>): (r: string)
    ensures r == "" <==> cs == []
  {
    assert cs != [] ==> Entry(cs[0]) == Entries(cs)[0];
    Join(Entries(cs), Separator)
  }

  /** A single cookie is written without any separator. */
  lemma CookieStringSingle(c: Cookie)
    ensures CookieString([c]) == c.name + "=" + c.value
  {
  }

  /** Adding a cookie appends the separator and its entry. */
  lemma CookieStringAppend(cs: seq<Cookie>, c: Cookie)
    requires cs != []
    ensures CookieString(cs + [c]) == CookieString(cs) + Separator + Entry(c)
  {
    JoinAppend(Entries(cs), Entry(c), Separator);
    assert Entries(cs + [c]) == Entries(cs) + [Entry(c)];
  }

  /** When no name or value contains "; ", the entry `name=value` does not
      either: `=` can neither end nor start a separator. */
  lemma EntryHasNoSeparator(c: Cookie)
    requires !Contains(c.name, Separator) && !Contains(c.value, Separator)
    ensures !Contains(Entry(c), Separator)
  {
    var e, n := Entry(c), |c.name|;
    assert Separator == [';', ' '];
    forall i | 0 <= i <= |e| ensures !OccursAt(e, Separator, i) {
      if i + 2 <= |e| {
        assert e[i..i + 2] == [e[i], e[i + 1]];
        if i + 2 <= n {
          assert c.name[i..i + 2] == [c.name[i], c.name[i + 1]];
          assert e[i] == c.name[i] && e[i + 1] == c.name[i + 1];
          assert !OccursAt(c.name, Separator, i);
        } else if i + 1 == n {
          assert e[i + 1] == '=';
        } else if i == n {
          assert e[i] == '=';
        } else {
          var j := i - n - 1;
          assert c.value[j..j + 2] == [c.value[j], c.value[j + 1]];
          assert e[i] == c.value[j] && e[i + 1] == c.value[j + 1];
          assert !OccursAt(c.value, Separator, j);
        }
      }
    }
  }

  /** Splitting the header on "; " gives back the entries, one per cookie and
      in order, provided no name or value contains "; ". */
  lemma CookieStringSplits(cs: seq<Cookie>)
    requires cs != []
    requires forall k :: 0 <= k < |cs| ==>
               !Contains(cs[k].name, Separator) && !Contains(cs[k].value, Separator)
    ensures Split(CookieString(cs), Separator) == Entries(cs)
    ensures forall k :: 0 <= k < |cs| ==>
              Split(CookieString(cs), Separator)[k] == cs[k].name + "=" + cs[k].value
  {
    var es := Entries(cs);
    forall k | 0 <= k < |es| ensures SeparatesCleanly(es[k], Separator) {
      EntryHasNoSeparator(cs[k]);
      assert Separator[1..] == " ";
      NoContainsCleanly(es[k], Separator);
    }
    SplitJoin(es, Separator);
  }
}
