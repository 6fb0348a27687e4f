/**
 * The decisions `execute` takes around its requests: which search strategy
 * runs, which genre a genre query names, and which records a director search
 * keeps.
 */
module Search {
  import opened Wrappers
  import opened Seqs
  import opened Movies

  // ---------------------------------------------------------------------------
  // Strategy dispatch

  /** The query object passed to `execute`; an attribute is absent or a string. */
  datatype Attributes = Attributes(
    title: Option<string>, cast: Option<string>, director: Option<string>, genre: Option<string>)

  /** The one search strategy `execute` runs, with the attribute value it searches for. */
  datatype Strategy = ByTitle(query: string) | ByCast(query: string)
                    | ByDirector(query: string) | ByGenre(query: string)

  /** JavaScript truthiness of an attribute: present and not the empty string. */
  predicate Truthy(v: Option<string>) { v.Some? && v.value != "" }

  /** The attributes in the order `execute` tests them. */
  function InPriorityOrder(attr: Attributes): seq<Option<string>> {
    [attr.title, attr.cast, attr.director, attr.genre]
  }

  /** Position of a strategy's attribute in `InPriorityOrder`. */
  function Rank(s: Strategy): nat {
    match s
    case ByTitle(_) => 0
    case ByCast(_) => 1
    case ByDirector(_) => 2
    case ByGenre(_) => 3
  }

  /**
   * The `if`/`else if` chain of `execute`: the strategy of the first truthy
   * attribute in the order title, cast, director, genre, or none at all.
   */
  function Dispatch(attr: Attributes): (r: Option<Strategy>)
    ensures r.None? <==> forall k :: 0 <= k < 4 ==> !Truthy(InPriorityOrder(attr)[k])
    ensures r.Some? ==>
              InPriorityOrder(attr)[Rank(r.value)] == Some(r.value.query) && r.value.query != "" &&
              forall k :: 0 <= k < Rank(r.value) ==> !Truthy(InPriorityOrder(attr)[k])
  {
    var order := InPriorityOrder(attr);
    if Truthy(attr.title) then assert Truthy(order[0]); Some(ByTitle(attr.title.value))
    else if Truthy(attr.cast) then assert Truthy(order[1]); Some(ByCast(attr.cast.value))
    else if Truthy(attr.director) then assert Truthy(order[2]); Some(ByDirector(attr.director.value))
    else if Truthy(attr.genre) then assert Truthy(order[3]); Some(ByGenre(attr.genre.value))
    else None
  }

  // ---------------------------------------------------------------------------
  // ASCII `toLowerCase` and `trim`

  function LowerChar(c: char): (d: char)
    ensures 'A' <= c <= 'Z' ==> d as int == c as int + 32
    ensures !('A' <= c <= 'Z') ==> d == c
  {
    if 'A' <= c <= 'Z' then (c as int + 32) as char else c
  }

  /** `toLowerCase`, on the ASCII letters. */
  function ToLower(s: string): (r: string)
    ensures |r| == |s|
    ensures forall k :: 0 <= k < |s| ==> r[k] == LowerChar(s[k])
  {
    if s == [] then [] else [LowerChar(s[0])] + ToLower(s[1..])
  }

  /** The ASCII white-space characters `trim` removes: space, tab, line feed, vertical tab, form feed, carriage return. */
  predicate IsSpace(c: char) {
    c == ' ' || c == '\t' || c == '\n' || c == '\r' || c as int == 0x0B || c as int == 0x0C
  }

  predicate AllSpace(s: string) { forall k :: 0 <= k < |s| ==> IsSpace(s[k]) }

  /** `s` without its leading white space. */
  function TrimStart(s: string): string {
    if s != [] && IsSpace(s[0]) then TrimStart(s[1..]) else s
  }

  /** `s` without its trailing white space. */
  function TrimEnd(s: string): string {
    if s != [] && IsSpace(s[|s| - 1]) then TrimEnd(s[..|s| - 1]) else s
  }

  /** `TrimStart` removes a white-space prefix and stops at the first other character. */
  lemma {:induction false} TrimStartRemovesLeadingSpace(s: string)
    ensures |TrimStart(s)| <= |s| && TrimStart(s) == s[|s| - |TrimStart(s)|..]
    ensures AllSpace(s[..|s| - |TrimStart(s)|])
    ensures TrimStart(s) == [] || !IsSpace(TrimStart(s)[0])
  {
    if s != [] && IsSpace(s[0]) {
      TrimStartRemovesLeadingSpace(s[1..]);
      var r := TrimStart(s[1..]);
      assert s[..|s| - |r|] == [s[0]] + s[1..][..|s| - 1 - |r|];
    }
  }

  /** `TrimEnd` removes a white-space suffix and stops at the last other character. */
  lemma {:induction false} TrimEndRemovesTrailingSpace(s: string)
    ensures |TrimEnd(s)| <= |s| && TrimEnd(s) == s[..|TrimEnd(s)|]
    ensures AllSpace(s[|TrimEnd(s)|..])
    ensures TrimEnd(s) == [] || !IsSpace(TrimEnd(s)[|TrimEnd(s)| - 1])
  {
    if s != [] && IsSpace(s[|s| - 1]) {
      TrimEndRemovesTrailingSpace(s[..|s| - 1]);
      var r := TrimEnd(s[..|s| - 1]);
      assert s[|r|..] == s[..|s| - 1][|r|..] + [s[|s| - 1]];
    }
  }

  /** `trim`. */
  function Trim(s: string): string { TrimEnd(TrimStart(s)) }

  /** The key a genre query is compared under: `query.trim().toLowerCase()`. */
  function GenreKey(query: string): string { ToLower(Trim(query)) }

  lemma LowerKeepsSpace(c: char)
    ensures IsSpace(LowerChar(c)) == IsSpace(c)
  {
  }

  lemma {:induction false} TrimStartLower(s: string)
    ensures TrimStart(ToLower(s)) == ToLower(TrimStart(s))
  {
    if s != [] {
      LowerKeepsSpace(s[0]);
      assert ToLower(s)[1..] == ToLower(s[1..]);
      TrimStartLower(s[1..]);
    }
  }

  lemma {:induction false} TrimEndLower(s: string)
    ensures TrimEnd(ToLower(s)) == ToLower(TrimEnd(s))
  {
    if s != [] {
      LowerKeepsSpace(s[|s| - 1]);
      assert ToLower(s)[..|s| - 1] == ToLower(s[..|s| - 1]);
      TrimEndLower(s[..|s| - 1]);
    }
  }

  /** Lower-casing twice is lower-casing once. */
  lemma LowerLower(s: string)
    ensures ToLower(ToLower(s)) == ToLower(s)
  {
  }

  /** Two queries that differ only in the case of their letters give the same key. */
  lemma GenreKeyIgnoresCase(q1: string, q2: string)
    requires ToLower(q1) == ToLower(q2)
    ensures GenreKey(q1) == GenreKey(q2)
  {
    TrimStartLower(q1);
    TrimEndLower(TrimStart(q1));
    TrimStartLower(q2);
    TrimEndLower(TrimStart(q2));
    LowerLower(TrimEnd(TrimStart(q1)));
    LowerLower(TrimEnd(TrimStart(q2)));
  }

  lemma {:induction false} TrimStartPadded(pad: string, s: string)
    requires AllSpace(pad)
    ensures TrimStart(pad + s) == TrimStart(s)
  {
    if pad != [] {
      assert (pad + s)[0] == pad[0];
      assert (pad + s)[1..] == pad[1..] + s;
      TrimStartPadded(pad[1..], s);
    } else {
      assert pad + s == s;
    }
  }

  lemma {:induction false} TrimEndPadded(s: string, pad: string)
    requires AllSpace(pad)
    ensures TrimEnd(s + pad) == TrimEnd(s)
  {
    if pad != [] {
      var n := |pad|;
      assert (s + pad)[|s| + n - 1] == pad[n - 1];
      assert (s + pad)[..|s| + n - 1] == s + pad[..n - 1];
      TrimEndPadded(s, pad[..n - 1]);
    } else {
      assert s + pad == s;
    }
  }

  lemma {:induction false} TrimStartThenPad(s: string, pad: string)
    requires AllSpace(pad)
    ensures TrimEnd(TrimStart(s + pad)) == TrimEnd(TrimStart(s))
  {
    if s == [] {
      assert s + pad == pad;
      TrimStartPadded(pad, []);
      assert pad + [] == pad;
    } else if IsSpace(s[0]) {
      assert (s + pad)[1..] == s[1..] + pad;
      TrimStartThenPad(s[1..], pad);
    } else {
      TrimEndPadded(s, pad);
    }
  }

  /** White space around a query does not change its key. */
  lemma GenreKeyIgnoresPadding(before: string, q: string, after: string)
    requires AllSpace(before) && AllSpace(after)
    ensures GenreKey(before + q + after) == GenreKey(q)
  {
    TrimStartPadded(before, q + after);
    assert before + q + after == before + (q + after);
    TrimStartThenPad(q, after);
  }

  // ---------------------------------------------------------------------------
  // Genre lookup

  /** `k` is the first position whose genre's lower-cased name is `key`. */
  predicate IsFirstMatch(genres: seq<MovieGenre>, key: string, k: int) {
    && 0 <= k < |genres|
    && ToLower(genres[k].name) == key
    && forall j :: 0 <= j < k ==> ToLower(genres[j].name) != key
  }

  /** The first genre whose lower-cased name equals `key`, if there is one. */
  function FirstGenreNamed(genres: seq<MovieGenre>, key: string): (r: Option<MovieGenre>)
    ensures r.None? <==> forall k :: 0 <= k < |genres| ==> ToLower(genres[k].name) != key
    ensures r.Some? ==> exists k :: IsFirstMatch(genres, key, k) && genres[k] == r.value
  {
    if genres == [] then None
    else if ToLower(genres[0].name) == key then
      assert IsFirstMatch(genres, key, 0);
      Some(genres[0])
    else
      var rest := FirstGenreNamed(genres[1..], key);
      if rest.Some? then
        var k :| IsFirstMatch(genres[1..], key, k) && genres[1..][k] == rest.value;
        assert IsFirstMatch(genres, key, k + 1);
        rest
      else rest
  }

  /** The first match, wherever it is, is what `FirstGenreNamed` finds. */
  lemma {:induction false} FirstGenreNamedAt(genres: seq<MovieGenre>, key: string, k: int)
    requires IsFirstMatch(genres, key, k)
    ensures FirstGenreNamed(genres, key) == Some(genres[k])
  {
    if k > 0 {
      assert ToLower(genres[0].name) != key;
      assert IsFirstMatch(genres[1..], key, k - 1);
      FirstGenreNamedAt(genres[1..], key, k - 1);
    }
  }

  /**
   * The genre branch's loop over the genre list: the first genre whose
   * lower-cased name equals the trimmed, lower-cased query; `None` when no
   * genre matches, in which case `execute` produces no result at all.
   */
  method FindGenre(genres: seq<MovieGenre>, query: string) returns (r: Option<MovieGenre>)
    ensures r == FirstGenreNamed(genres, GenreKey(query))
  {
    var attrGenre := ToLower(Trim(query));
    for k := 0 to |genres|
      invariant forall j :: 0 <= j < k ==> ToLower(genres[j].name) != attrGenre
    {
      if ToLower(genres[k].name) == attrGenre {
        FirstGenreNamedAt(genres, attrGenre, k);
        return Some(genres[k]);
      }
    }
    return None;
  }

  /** A genre query picks the same genre whatever the case of its letters and the white space around it. */
  lemma FindGenreIgnoresCaseAndPadding(genres: seq<MovieGenre>, before: string, q1: string, q2: string, after: string)
    requires ToLower(q1) == ToLower(q2)
    requires AllSpace(before) && AllSpace(after)
    ensures FirstGenreNamed(genres, GenreKey(before + q1 + after)) == FirstGenreNamed(genres, GenreKey(q2))
  {
    GenreKeyIgnoresPadding(before, q1, after);
    GenreKeyIgnoresCase(q1, q2);
  }

  // ---------------------------------------------------------------------------
  // Director post-filter

  /** A JavaScript value a record property can hold. */
  datatype Value = Undefined | Null | Text(text: string) | Names(names: seq<string>)

  /**
   * Reading the property `key` of a record, under the property names the
   * record literal uses; any other name reads as `undefined`.
   */
  function Property(r: MovieRecord, key: string): Value {
    match key
    case "link" => Text(r.link)
    case "SOURCE" => Text(r.source)
    case "MEDIA" => Text(r.media)
    case "name" => Text(r.name)
    case "tags" => if r.tags.Some? then Names(r.tags.value) else Null
    case "filmandbookgenre" => Names(r.filmAndBookGenre)
    case "country" => if r.country.Some? then Text(r.country.value) else Null
    case "language" => if r.language.Some? then Text(r.language.value) else Null
    case "subtitle" => if r.subtitle.Some? then Text(r.subtitle.value) else Null
    case "director" => Names(r.director)
    case "cast" => Names(r.cast)
    case "movieorseries" => Text(r.movieOrSeries)
    case _ => Undefined
  }

  /** Only strings and arrays have an `indexOf` method; on `undefined` or `null` the call throws. */
  predicate HasIndexOf(v: Value) { v.Text? || v.Names? }

  /** `q` occurs in `s` at some position. */
  predicate Occurs(q: string, s: string) {
    exists k :: 0 <= k <= |s| && q <= s[k..]
  }

  /** `v.indexOf(q) !== -1`: an element of an array equal to `q`, or a substring of a string. */
  predicate IndexFound(v: Value, q: string)
    requires HasIndexOf(v)
  {
    if v.Names? then q in v.names else Occurs(q, v.text)
  }

  /** The test the director search applies to each record: `indexOf(name)` on its property `key` finds `name`. */
  function Mentions(key: string, name: string): MovieRecord -> bool {
    (r: MovieRecord) => HasIndexOf(Property(r, key)) && IndexFound(Property(r, key), name)
  }

  /** The intended test: the record's `director` list names `name` exactly. */
  function DirectedBy(name: string): MovieRecord -> bool {
    Mentions("director", name)
  }

  /**
   * The director search's clean-up loop, reading the property `key` of each
   * record: a record where `indexOf(name)` finds nothing is spliced out, and
   * the index only moves past a record that stays. The loop throws a
   * `TypeError` exactly when some record's property has no `indexOf`;
   * otherwise it leaves the records that mention `name`, in their original
   * order.
   */
  method SpliceOut(data: seq<MovieRecord>, key: string, name: string)
    returns (r: Result<seq<MovieRecord>, string>)
    ensures r.Failure? <==> exists rec :: rec in data && !HasIndexOf(Property(rec, key))
    ensures r.Success? ==> r.value == Filter(Mentions(key, name), data)
  {
    var kept := data;
    var i := 0;
    ghost var j := 0;
    while i < |kept|
      invariant 0 <= i <= |kept| && 0 <= j <= |data|
      invariant kept[..i] == Filter(Mentions(key, name), data[..j])
      invariant kept[i..] == data[j..]
      invariant forall k :: 0 <= k < j ==> HasIndexOf(Property(data[k], key))
      decreases |kept| - i
    {
      assert kept[i] == data[j];
      var property := Property(kept[i], key);
      if !HasIndexOf(property) {
        return Failure("TypeError");
      }
      FilterPrefixStep(Mentions(key, name), data, j);
      assert kept[i + 1..] == data[j + 1..] by {
        assert kept[i..][1..] == data[j..][1..];
      }
      if !IndexFound(property, name) {
        kept := kept[..i] + kept[i + 1..];
        assert kept[i..] == data[j + 1..];
      } else {
        i := i + 1;
      }
      j := j + 1;
    }
    assert data[..j] == data;
    r := Success(kept);
  }

  /**
   * The loop as intended, reading `director`: it never throws and keeps
   * exactly the records directed by `name`, in their original order.
   */
  method KeepDirectedBy(data: seq<MovieRecord>, name: string) returns (kept: seq<MovieRecord>)
    ensures kept == Filter(DirectedBy(name), data)
  {
    var r := SpliceOut(data, "director", name);
    kept := r.value;
  }

  /** A record survives the director filter exactly when it was in the list and names `name` as a director. */
  lemma KeptAreDirectedBy(data: seq<MovieRecord>, name: string, rec: MovieRecord)
    ensures rec in Filter(DirectedBy(name), data) <==> rec in data && name in rec.director
  {
    FilterCount(DirectedBy(name), data, rec);
  }

  /**
   * The loop as `index.js` writes it, reading `directors`, a property no
   * record has: `indexOf` is called on `undefined`, so the search throws on
   * every non-empty list and returns nothing but the empty list.
   */
  method KeepDirectedByAsWritten(data: seq<MovieRecord>, name: string)
    returns (r: Result<seq<MovieRecord>, string>)
    ensures r.Failure? <==> data != []
    ensures r.Success? ==> r.value == []
  {
    r := SpliceOut(data, "directors", name);
    if data != [] {
      assert !HasIndexOf(Property(data[0], "directors"));
    }
  }

  /**
   * A record that James Cameron directed: its `directors` property is
   * `undefined`, so the loop as written throws on it, whereas the intended
   * filter keeps it.
   */
  lemma AsWrittenRejectsMatchingRecord()
    ensures var rec := FormatRecord(Credits([CrewMember("James Cameron", "Director")], []),
                                    Details("The Terminator", "tt0088247", []));
            Property(rec, "directors") == Undefined &&
            Filter(DirectedBy("James Cameron"), [rec]) == [rec]
  {
    var rec := FormatRecord(Credits([CrewMember("James Cameron", "Director")], []),
                            Details("The Terminator", "tt0088247", []));
    assert rec.director == ["James Cameron"];
  }
}
