/** Loading the registry from environment variables, the fallback that
    carregar_config takes when config.json does not exist.

    GRUPOS_DESTINO and ADMIN_IDS hold comma-separated ids: the string is
    split at every comma, empty segments are dropped and every remaining
    segment goes through int(), in order.  GRUPO_ORIGEM_ID holds one id and
    defaults to 0 when unset.  A segment that int() rejects raises
    ValueError, which aborts the load; the model returns None there.
 */
module Config {
  import opened Ids
  import opened Registry

  /** The segments joined back with commas; the inverse of Split. */
  function Join(segments: seq<string>): string
    decreases |segments|
  {
    if segments == [] then []
    else if |segments| == 1 then segments[0]
    else segments[0] + [','] + Join(segments[1..])
  }

  /** Python's s.split(","): the text between commas, at least one segment. */
  function Split(s: string): (r: seq<string>)
    ensures |r| > 0
    ensures forall k :: 0 <= k < |r| ==> ',' !in r[k]
    ensures Join(r) == s
    decreases |s|
  {
    if s == [] then [[]]
    else
      var rest := Split(s[1..]);
      if s[0] == ',' then [[]] + rest
      else [[s[0]] + rest[0]] + rest[1..]
  }

  /** The `if id` filter of the comprehension: empty segments are dropped. */
  function NonEmpty(segments: seq<string>): (r: seq<string>)
    ensures |r| <= |segments|
    ensures forall k :: 0 <= k < |r| ==> r[k] != []
    ensures forall x :: x in r <==> x in segments && x != []
    decreases |segments|
  {
    if segments == [] then []
    else if segments[0] == [] then NonEmpty(segments[1..])
    else [segments[0]] + NonEmpty(segments[1..])
  }

  /** Every segment is something int() accepts. */
  predicate AllIntegers(segments: seq<string>) {
    forall k :: 0 <= k < |segments| ==> ParseInt(segments[k]).Some?
  }

  /** Every segment is empty or something int() accepts. */
  predicate NonEmptyIntegers(segments: seq<string>) {
    forall k :: 0 <= k < |segments| ==> segments[k] == [] || ParseInt(segments[k]).Some?
  }

  /** int() applied to every segment in order; None as soon as one is not an integer. */
  function ParseAll(segments: seq<string>): (r: Option<seq<int>>)
    ensures r.Some? <==> AllIntegers(segments)
    ensures r.Some? ==> |r.value| == |segments| &&
                        forall k :: 0 <= k < |segments| ==> ParseInt(segments[k]) == Some(r.value[k])
    decreases |segments|
  {
    if segments == [] then Some([])
    else match (ParseInt(segments[0]), ParseAll(segments[1..]))
      case (Some(id), Some(ids)) =>
        assert forall k :: 1 <= k < |segments| ==> segments[k] == segments[1..][k - 1];
        Some([id] + ids)
      case _ =>
        assert forall k :: 1 <= k < |segments| ==> segments[k] == segments[1..][k - 1];
        None
  }

  /** [int(id) for id in s.split(",") if id]: succeeds iff every non-empty
      segment is an integer, with at most one id per segment. */
  function ParseIdList(s: string): (r: Option<seq<int>>)
    ensures s == [] ==> r == Some([])
    ensures r.Some? <==> NonEmptyIntegers(Split(s))
    ensures r.Some? ==> |r.value| <= |Split(s)|
  {
    NonEmptyParses(Split(s));
    ParseAll(NonEmpty(Split(s)))
  }

  /** Two lists one after the other; None if either is None. */
  function Concat(a: Option<seq<int>>, b: Option<seq<int>>): Option<seq<int>> {
    if a.Some? && b.Some? then Some(a.value + b.value) else None
  }

  /** The way an operator writes a list of ids into the environment. */
  function JoinIds(ids: seq<int>): string {
    Join(seq(|ids|, k requires 0 <= k < |ids| => IntToString(ids[k])))
  }

  /** The environment variables carregar_config reads; None when unset. */
  datatype Environment = Environment(origin: Option<string>, destinations: Option<string>, admins: Option<string>)

  /** The registry loaded from the environment, or None where int() raises.
      An unset origin reads as 0 and an unset list as the empty list. */
  function LoadFromEnvironment(env: Environment): (r: Option<Snapshot>)
    ensures env == Environment(None, None, None) ==> r == Some(Snapshot(0, [], []))
    ensures r.Some? <==>
              (env.origin.None? || ParseInt(env.origin.value).Some?) &&
              ParseIdList(if env.destinations.Some? then env.destinations.value else "").Some? &&
              ParseIdList(if env.admins.Some? then env.admins.value else "").Some?
    ensures r.Some? ==>
              (env.origin.None? ==> r.value.origin == 0) &&
              (env.origin.Some? ==> ParseInt(env.origin.value) == Some(r.value.origin)) &&
              ParseIdList(if env.destinations.Some? then env.destinations.value else "") == Some(r.value.destinations) &&
              ParseIdList(if env.admins.Some? then env.admins.value else "") == Some(r.value.admins)
  {
    var origin := if env.origin.None? then Some(0) else ParseInt(env.origin.value);
    var destinations := ParseIdList(if env.destinations.Some? then env.destinations.value else "");
    var admins := ParseIdList(if env.admins.Some? then env.admins.value else "");
    if origin.Some? && destinations.Some? && admins.Some? then
      Some(Snapshot(origin.value, destinations.value, admins.value))
    else None
  }

  // ---------------------------------------------------------------------
  // Splitting

  /** Splitting at a comma splits the two sides independently. */
  lemma {:induction false} SplitAtComma(s: string, t: string)
    ensures Split(s + [','] + t) == Split(s) + Split(t)
    decreases |s|
  {
    if s == [] {
      assert s + [','] + t == [','] + t;
      assert ([','] + t)[1..] == t;
    } else {
      assert (s + [','] + t)[0] == s[0];
      assert (s + [','] + t)[1..] == s[1..] + [','] + t;
      SplitAtComma(s[1..], t);
    }
  }

  /** A segment without commas splits to itself. */
  lemma {:induction false} SplitSegment(segment: string)
    requires ',' !in segment
    ensures Split(segment) == [segment]
    decreases |segment|
  {
  }

  /** Split undoes Join on segments that hold no comma. */
  lemma {:induction false} SplitJoin(segments: seq<string>)
    requires |segments| > 0
    requires forall k :: 0 <= k < |segments| ==> ',' !in segments[k]
    ensures Split(Join(segments)) == segments
    decreases |segments|
  {
    SplitSegment(segments[0]);
    if |segments| > 1 {
      SplitJoin(segments[1..]);
      SplitAtComma(segments[0], Join(segments[1..]));
    }
  }

  // ---------------------------------------------------------------------
  // Filtering and parsing

  lemma {:induction false} NonEmptyAppend(a: seq<string>, b: seq<string>)
    ensures NonEmpty(a + b) == NonEmpty(a) + NonEmpty(b)
    decreases |a|
  {
    if a == [] {
      assert a + b == b;
    } else {
      assert (a + b)[0] == a[0] && (a + b)[1..] == a[1..] + b;
      NonEmptyAppend(a[1..], b);
    }
  }

  lemma {:induction false} NonEmptyKeepsAll(segments: seq<string>)
    requires forall k :: 0 <= k < |segments| ==> segments[k] != []
    ensures NonEmpty(segments) == segments
    decreases |segments|
  {
    if segments != [] {
      NonEmptyKeepsAll(segments[1..]);
    }
  }

  /** Every kept segment parses iff every non-empty segment does. */
  lemma NonEmptyParses(segments: seq<string>)
    ensures AllIntegers(NonEmpty(segments)) <==> NonEmptyIntegers(segments)
  {
    var kept := NonEmpty(segments);
    if forall j :: 0 <= j < |kept| ==> ParseInt(kept[j]).Some? {
      forall k | 0 <= k < |segments| && segments[k] != []
        ensures ParseInt(segments[k]).Some?
      {
        assert segments[k] in kept;
      }
    }
    if forall k :: 0 <= k < |segments| ==> segments[k] == [] || ParseInt(segments[k]).Some? {
      forall j | 0 <= j < |kept|
        ensures ParseInt(kept[j]).Some?
      {
        assert kept[j] in segments;
      }
    }
  }

  lemma ParseAllAppend(a: seq<string>, b: seq<string>)
    ensures ParseAll(a + b) == Concat(ParseAll(a), ParseAll(b))
  {
    var ab := a + b;
    assert forall k :: 0 <= k < |a| ==> ab[k] == a[k];
    assert forall k :: 0 <= k < |b| ==> ab[|a| + k] == b[k];
    if ParseAll(a).Some? && ParseAll(b).Some? {
      var ids := ParseAll(a).value + ParseAll(b).value;
      forall k | 0 <= k < |ab| ensures ParseInt(ab[k]) == Some(ids[k]) {
        if k >= |a| {
          assert ab[k] == b[k - |a|];
        }
      }
      assert ParseAll(ab).value == ids;
    } else if ParseAll(a).None? {
      var k :| 0 <= k < |a| && ParseInt(a[k]).None?;
      assert ParseInt(ab[k]).None?;
    } else {
      var k :| 0 <= k < |b| && ParseInt(b[k]).None?;
      assert ParseInt(ab[|a| + k]).None?;
    }
  }

  // ---------------------------------------------------------------------
  // What the id-list parser promises

  /** The ids on either side of a comma are parsed independently and kept in order;
      in particular empty segments contribute nothing. */
  lemma ParseIdListAtComma(s: string, t: string)
    ensures ParseIdList(s + [','] + t) == Concat(ParseIdList(s), ParseIdList(t))
  {
    SplitAtComma(s, t);
    NonEmptyAppend(Split(s), Split(t));
    ParseAllAppend(NonEmpty(Split(s)), NonEmpty(Split(t)));
  }

  /** Leading, trailing and doubled commas change nothing. */
  lemma ParseIdListIgnoresEmptySegments(s: string, t: string)
    ensures ParseIdList([','] + t) == ParseIdList(t)
    ensures ParseIdList(s + [',']) == ParseIdList(s)
    ensures ParseIdList(s + [',', ','] + t) == ParseIdList(s + [','] + t)
  {
    assert ParseIdList([','] + t) == ParseIdList(t) by {
      ParseIdListAtComma([], t);
      assert [] + [','] + t == [','] + t;
      if ParseIdList(t).Some? {
        assert [] + ParseIdList(t).value == ParseIdList(t).value;
      }
    }
    assert ParseIdList(s + [',']) == ParseIdList(s) by {
      ParseIdListAtComma(s, []);
      assert s + [','] + [] == s + [','];
      if ParseIdList(s).Some? {
        assert ParseIdList(s).value + [] == ParseIdList(s).value;
      }
    }
    ParseIdListAtComma(s + [','], t);
    assert s + [','] + [','] + t == s + [',', ','] + t;
    ParseIdListAtComma(s, t);
  }

  /** Every list of ids written with commas is read back exactly, in order. */
  lemma ParseIdListRoundTrip(ids: seq<int>)
    ensures ParseIdList(JoinIds(ids)) == Some(ids)
  {
    var texts := seq(|ids|, k requires 0 <= k < |ids| => IntToString(ids[k]));
    if ids != [] {
      SplitJoin(texts);
      NonEmptyKeepsAll(texts);
      var r := ParseAll(texts);
      assert r.Some?;
      assert forall k :: 0 <= k < |ids| ==> Some(r.value[k]) == ParseInt(texts[k]) == Some(ids[k]);
      assert r.value == ids;
    }
  }
}
