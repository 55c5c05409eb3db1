/**
 The parts of admission both servers share: the room id taken from the
 request path, the lookups in the decoded query pairs, and the text of the
 duplicate-name rejection.
 */
module Admission {
  import opened Wrappers
  import opened Registry

  /** One decoded `key=value` pair of the query string, in request order. */
  type QueryPair = (string, string)

  const DefaultRoom: RoomName := "default"

  /** HTTP status of the duplicate-name rejection (409 Conflict). */
  const ConflictStatus: nat := 409

  /** Body of the duplicate-name rejection. */
  function NameInUse(name: string): string {
    "Name '" + name + "' is already in use"
  }

  predicate AllSlashes(s: string) {
    forall i :: 0 <= i < |s| ==> s[i] == '/'
  }

  /** Strip every leading '/' (not just one): the result is the suffix left
      after the longest all-slash prefix. */
  function TrimLeadingSlashes(s: string): (r: string)
    ensures |r| <= |s| && s == s[..|s| - |r|] + r
    ensures AllSlashes(s[..|s| - |r|])
    ensures r == [] || r[0] != '/'
  {
    if |s| > 0 && s[0] == '/' then
      var r := TrimLeadingSlashes(s[1..]);
      assert s[1..] == s[1..][..|s[1..]| - |r|] + r;
      assert s[..|s| - |r|] == [s[0]] + s[1..][..|s[1..]| - |r|];
      r
    else s
  }

  /**
   The room a request names: the path with all leading '/' removed; an empty
   result, or a request URL that does not parse, selects the room "default".
   A non-default room id is the path's own text, never rewritten.
   */
  function RoomIdFromPath(path: Option<string>): (room: RoomName)
    ensures room != [] && room[0] != '/'
    ensures path.None? || AllSlashes(path.value) ==> room == DefaultRoom
    ensures path.Some? && !AllSlashes(path.value) ==>
              var k := |path.value| - |room|;
              0 <= k && AllSlashes(path.value[..k]) && path.value == path.value[..k] + room
  {
    match path
    case None => DefaultRoom
    case Some(p) =>
      var t := TrimLeadingSlashes(p);
      if t == [] then DefaultRoom
      else
        assert p[|p| - |t|] == t[0];
        t
  }

  /** The value of the first pair with the given key, as a first-match search
      over the pairs does. */
  function FirstValue(pairs: seq<QueryPair>, key: string): (v: Option<string>)
    ensures v.None? <==> forall i :: 0 <= i < |pairs| ==> pairs[i].0 != key
    ensures v.Some? ==> exists i :: 0 <= i < |pairs| && pairs[i] == (key, v.value)
                                 && forall j :: 0 <= j < i ==> pairs[j].0 != key
  {
    if pairs == [] then None
    else if pairs[0].0 == key then Some(pairs[0].1)
    else
      var v := FirstValue(pairs[1..], key);
      assert forall i :: 0 < i < |pairs| ==> pairs[i] == pairs[1..][i - 1];
      v
  }

  /** The pairs collected into a hash map, one insertion per pair in request
      order: a key is present iff some pair carries it. */
  function CollectPairs(pairs: seq<QueryPair>): (params: map<string, string>)
    ensures forall k :: k in params <==> exists i :: 0 <= i < |pairs| && pairs[i].0 == k
    decreases |pairs|
  {
    if pairs == [] then map[]
    else
      var n := |pairs| - 1;
      assert forall i :: 0 <= i < n ==> pairs[..n][i] == pairs[i];
      CollectPairs(pairs[..n])[pairs[n].0 := pairs[n].1]
  }

  /** A repeated key keeps the value of its last occurrence. */
  lemma {:induction false} CollectPairsLastWins(pairs: seq<QueryPair>, i: nat)
    requires i < |pairs|
    requires forall j :: i < j < |pairs| ==> pairs[j].0 != pairs[i].0
    ensures pairs[i].0 in CollectPairs(pairs) && CollectPairs(pairs)[pairs[i].0] == pairs[i].1
    decreases |pairs|
  {
    var n := |pairs| - 1;
    if i < n {
      assert pairs[..n][i] == pairs[i];
      assert forall j :: i < j < n ==> pairs[..n][j] == pairs[j];
      CollectPairsLastWins(pairs[..n], i);
    }
  }

  /** The key occurs in the pairs and its last occurrence carries value v. */
  ghost predicate LastValueIs(pairs: seq<QueryPair>, key: string, v: string) {
    exists i :: 0 <= i < |pairs| && pairs[i] == (key, v)
                && forall j :: i < j < |pairs| ==> pairs[j].0 != key
  }

  /** Looking a key up in the collected map finds it iff some pair carries it,
      and then yields the value of its last occurrence. */
  lemma {:induction false} CollectPairsLookup(pairs: seq<QueryPair>, key: string)
    ensures key in CollectPairs(pairs) <==> exists i :: 0 <= i < |pairs| && pairs[i].0 == key
    ensures key in CollectPairs(pairs) ==> LastValueIs(pairs, key, CollectPairs(pairs)[key])
    decreases |pairs|
  {
    if pairs != [] {
      var n := |pairs| - 1;
      if pairs[n].0 == key {
        CollectPairsLastWins(pairs, n);
      } else {
        CollectPairsLookup(pairs[..n], key);
        assert forall i :: 0 <= i < n ==> pairs[..n][i] == pairs[i];
        if key in CollectPairs(pairs) {
          var v := CollectPairs(pairs)[key];
          var i :| 0 <= i < n && pairs[..n][i] == (key, v)
                   && forall j :: i < j < n ==> pairs[..n][j].0 != key;
          assert pairs[i] == (key, v);
        }
      }
    }
  }
}
