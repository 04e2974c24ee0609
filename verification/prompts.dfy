/**
 * The two retry loops of the add and update flows, with the console replaced
 * by the finite sequence of entries the user types. Each entry is one line,
 * already parsed. If the entries run out before the loop is satisfied, the
 * program's Scanner throws and the flow is abandoned; `None` stands for that.
 */
module Prompts {
  import opened Wrappers
  import opened Items
  import opened Records

  /** The quantity the retry loop settles on: the first entry that is not negative. */
  function FirstNonNegative(entries: seq<int32>): (r: Option<int32>)
    ensures r.None? <==> forall i :: 0 <= i < |entries| ==> entries[i] < 0
    ensures r.Some? ==>
      r.value >= 0 &&
      exists k :: 0 <= k < |entries| && entries[k] == r.value && forall j :: 0 <= j < k ==> entries[j] < 0
  {
    if entries == [] then None
    else if entries[0] >= 0 then Some(entries[0])
    else
      var r := FirstNonNegative(entries[1..]);
      assert forall i :: 1 <= i < |entries| ==> entries[i] == entries[1..][i - 1];
      r
  }

  /** The code the add flow's retry loop settles on: the first entry no record carries yet. */
  function FirstFresh(s: seq<Item>, entries: seq<string>): (r: Option<string>)
    ensures r.None? <==> forall i :: 0 <= i < |entries| ==> HasCode(s, entries[i])
    ensures r.Some? ==>
      !HasCode(s, r.value) &&
      exists k :: 0 <= k < |entries| && entries[k] == r.value && forall j :: 0 <= j < k ==> HasCode(s, entries[j])
  {
    if entries == [] then None
    else if !HasCode(s, entries[0]) then Some(entries[0])
    else
      var r := FirstFresh(s, entries[1..]);
      assert forall i :: 1 <= i < |entries| ==> entries[i] == entries[1..][i - 1];
      r
  }

  /** The quantity prompt: reads entries until one is not negative. */
  method ReadNonNegative(entries: seq<int32>) returns (r: Option<int32>)
    ensures r == FirstNonNegative(entries)
  {
    var i := 0;
    while i < |entries|
      invariant 0 <= i <= |entries|
      invariant FirstNonNegative(entries[i..]) == FirstNonNegative(entries)
    {
      if entries[i] >= 0 {
        return Some(entries[i]);
      }
      assert entries[i..][1..] == entries[i + 1..];
      i := i + 1;
    }
    return None;
  }
}
