/**
 Device-id extraction from an IoT Hub connection string: `extract_device_id`,
 which runs `re.search(r'DeviceId=([^;]+);', s)` and falls back to "Not found".

 The regular expression is modelled by an independent description of a match
 (`IsMatch`) and by a left-to-right scan (`Search`) that is proved to find the
 leftmost one, as `re.search` does.
 */
module ConnectionString {
  import opened Wrappers

  /** The literal that introduces the device id. */
  const Key: string := "DeviceId="

  /** What `extract_device_id` returns when the pattern does not match. */
  const NotFound: string := "Not found"

  /** `DeviceId=` occurs in `s` at position `i`. */
  predicate KeyAt(s: string, i: nat) {
    i + |Key| <= |s| && s[i..i + |Key|] == Key
  }

  /** The pattern matches `s` starting at `i`, and its closing `;` is at `j`:
      at least one character sits between the key and `j`, none of them a `;`. */
  ghost predicate IsMatch(s: string, i: nat, j: nat) {
    && KeyAt(s, i)
    && i + |Key| < j < |s|
    && s[j] == ';'
    && forall k :: i + |Key| <= k < j ==> s[k] != ';'
  }

  /** Some match of the pattern starts at `i`. */
  ghost predicate MatchesAt(s: string, i: nat) {
    exists j: nat :: IsMatch(s, i, j)
  }

  /** No match starts before `i`. */
  ghost predicate NoMatchBefore(s: string, i: nat) {
    forall i': nat :: i' < i ==> !MatchesAt(s, i')
  }

  /** A match that starts at `i` can close at one position only. */
  lemma MatchEndUnique(s: string, i: nat, j: nat, j': nat)
    requires IsMatch(s, i, j) && IsMatch(s, i, j')
    ensures j == j'
  {
  }

  /** When no start position matches, no (start, end) pair does either. */
  lemma NoMatchAnywhere(s: string)
    requires forall i: nat :: !MatchesAt(s, i)
    ensures forall i: nat, j: nat :: !IsMatch(s, i, j)
  {
    forall i: nat, j: nat
      ensures !IsMatch(s, i, j)
    {
      assert !MatchesAt(s, i);
    }
  }

  /** Position of the first `;` of `s` at or after `from`. */
  function FirstSemicolon(s: string, from: nat): (r: Option<nat>)
    requires from <= |s|
    decreases |s| - from
    ensures r.Some? ==> from <= r.value < |s| && s[r.value] == ';'
    ensures r.Some? ==> forall k :: from <= k < r.value ==> s[k] != ';'
    ensures r.None? ==> forall k :: from <= k < |s| ==> s[k] != ';'
  {
    if from == |s| then None
    else if s[from] == ';' then Some(from)
    else FirstSemicolon(s, from + 1)
  }

  /** A match found by the scan: the key starts at `start`, the `;` is at `stop`. */
  datatype Span = Span(start: nat, stop: nat)

  /** The leftmost match that starts at or after `from`, trying each start
      position in turn as `re.search` does. */
  function Search(s: string, from: nat): (r: Option<Span>)
    requires from <= |s|
    decreases |s| - from
    ensures r.Some? ==> from <= r.value.start && IsMatch(s, r.value.start, r.value.stop)
    ensures r.Some? ==> forall i: nat :: from <= i < r.value.start ==> !MatchesAt(s, i)
    ensures r.None? ==> forall i: nat :: from <= i ==> !MatchesAt(s, i)
  {
    if from == |s| then
      assert forall i: nat, j: nat :: from <= i ==> !IsMatch(s, i, j);
      None
    else if !KeyAt(s, from) then
      Search(s, from + 1)
    else
      match FirstSemicolon(s, from + |Key|)
      case Some(j) =>
        if j > from + |Key| then
          Some(Span(from, j))
        else
          assert forall j': nat :: !IsMatch(s, from, j');
          Search(s, from + 1)
      case None =>
        assert forall j': nat :: !IsMatch(s, from, j');
        Search(s, from + 1)
  }

  /** `extract_device_id`: the text between the leftmost matching `DeviceId=` and
      the `;` that closes it, or "Not found" when the pattern matches nowhere. */
  function ExtractDeviceId(s: string): (id: string)
    ensures |id| > 0 && ';' !in id
    ensures (forall i: nat :: !MatchesAt(s, i)) ==> id == NotFound
    ensures forall i: nat, j: nat :: IsMatch(s, i, j) && NoMatchBefore(s, i) ==> id == s[i + |Key|..j]
  {
    match Search(s, 0)
    case None =>
      NoMatchAnywhere(s);
      NotFound
    case Some(sp) =>
      var id := s[sp.start + |Key|..sp.stop];
      assert MatchesAt(s, sp.start);
      assert forall k :: 0 <= k < |id| ==> id[k] == s[sp.start + |Key| + k];
      assert forall i: nat, j: nat :: IsMatch(s, i, j) && NoMatchBefore(s, i) ==> i == sp.start && j == sp.stop by {
        forall i: nat, j: nat | IsMatch(s, i, j) && NoMatchBefore(s, i)
          ensures i == sp.start && j == sp.stop
        {
          assert MatchesAt(s, i);
          assert MatchesAt(s, sp.start);
          MatchEndUnique(s, i, j, sp.stop);
        }
      }
      id
  }
}
