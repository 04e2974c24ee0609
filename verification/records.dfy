/**
 * The inventory as an ordered sequence of records, and the specification of
 * what each store operation does to it. The class in inventory.dfy is proved
 * against these functions.
 */
module Records {
  import opened Wrappers
  import opened Items

  /** Some record carries `code` (what `isCodeExists` answers). */
  predicate HasCode(s: seq<Item>, code: string) {
    exists i :: 0 <= i < |s| && s[i].code == code
  }

  /** The store's invariant: no two records share a code. */
  predicate UniqueCodes(s: seq<Item>) {
    forall i, j :: 0 <= i < j < |s| ==> s[i].code != s[j].code
  }

  /** Position of the first record carrying `code`, the one every scan of the store stops at. */
  function FirstIndex(s: seq<Item>, code: string): (r: Option<nat>)
    ensures r.None? <==> !HasCode(s, code)
    ensures r.Some? ==>
      r.value < |s| && s[r.value].code == code &&
      forall j :: 0 <= j < r.value ==> s[j].code != code
  {
    if s == [] then None
    else if s[0].code == code then Some(0)
    else
      match FirstIndex(s[1..], code)
      case None =>
        assert forall i :: 1 <= i < |s| ==> s[i] == s[1..][i - 1];
        None
      case Some(k) =>
        assert s[k + 1] == s[1..][k];
        Some(k + 1)
  }

  /** Under the invariant the first record with a code is the only one. */
  lemma FirstIndexIsOnly(s: seq<Item>, code: string, i: int)
    requires UniqueCodes(s)
    requires 0 <= i < |s| && s[i].code == code
    ensures FirstIndex(s, code) == Some(i)
  {
  }

  /** Reference definition of deletion: drop the first record carrying `code`. */
  function RemoveFirst(s: seq<Item>, code: string): seq<Item> {
    if s == [] then []
    else if s[0].code == code then s[1..]
    else [s[0]] + RemoveFirst(s[1..], code)
  }

  /** Deleting at a known first match cuts out exactly that record. */
  lemma {:induction false} RemoveFirstAtIndex(s: seq<Item>, code: string, k: nat)
    requires k < |s| && s[k].code == code
    requires forall j :: 0 <= j < k ==> s[j].code != code
    ensures RemoveFirst(s, code) == s[..k] + s[k + 1..]
  {
    if k > 0 {
      var t := s[1..];
      RemoveFirstAtIndex(t, code, k - 1);
      assert t[..k - 1] == s[1..k] && t[k..] == s[k + 1..];
      assert [s[0]] + s[1..k] == s[..k];
    }
  }

  /** Deleting a code no record carries changes nothing. */
  lemma {:induction false} RemoveFirstAbsent(s: seq<Item>, code: string)
    requires forall j :: 0 <= j < |s| ==> s[j].code != code
    ensures RemoveFirst(s, code) == s
  {
    if s != [] {
      RemoveFirstAbsent(s[1..], code);
    }
  }

  /** Deletion cuts out exactly the first match and keeps every other record in order. */
  lemma {:induction false} RemoveFirstAt(s: seq<Item>, code: string)
    ensures FirstIndex(s, code).None? ==> RemoveFirst(s, code) == s
    ensures FirstIndex(s, code).Some? ==>
      var k := FirstIndex(s, code).value;
      RemoveFirst(s, code) == s[..k] + s[k + 1..]
  {
    match FirstIndex(s, code)
    case None => RemoveFirstAbsent(s, code);
    case Some(k) => RemoveFirstAtIndex(s, code, k);
  }

  /** Deleting a present code shrinks the store by one; an absent code changes nothing. */
  lemma {:induction false} RemoveFirstSize(s: seq<Item>, code: string)
    ensures HasCode(s, code) ==> |RemoveFirst(s, code)| == |s| - 1
    ensures !HasCode(s, code) ==> RemoveFirst(s, code) == s
  {
    RemoveFirstAt(s, code);
  }

  /**
   * Deletion keeps the unique-code invariant, leaves no record with the deleted
   * code behind, and leaves every other code exactly as present as before.
   */
  lemma RemoveFirstKeepsUnique(s: seq<Item>, code: string)
    requires UniqueCodes(s)
    ensures UniqueCodes(RemoveFirst(s, code))
    ensures !HasCode(RemoveFirst(s, code), code)
    ensures forall c :: c != code ==> (HasCode(RemoveFirst(s, code), c) <==> HasCode(s, c))
  {
    RemoveFirstAt(s, code);
    match FirstIndex(s, code)
    case None =>
    case Some(k) => CutKeepsUnique(s, k);
  }

  /** Record `i` of `s` with record `k` cut out. */
  lemma CutAt(s: seq<Item>, k: nat, i: nat)
    requires k < |s| && i < |s| - 1
    ensures (s[..k] + s[k + 1..])[i] == s[if i < k then i else i + 1]
  {
  }

  /** Cutting one record out of a list with unique codes keeps the other codes, and only those. */
  lemma CutKeepsUnique(s: seq<Item>, k: nat)
    requires UniqueCodes(s) && k < |s|
    ensures UniqueCodes(s[..k] + s[k + 1..])
    ensures !HasCode(s[..k] + s[k + 1..], s[k].code)
    ensures forall c :: c != s[k].code ==> (HasCode(s[..k] + s[k + 1..], c) <==> HasCode(s, c))
  {
    var r := s[..k] + s[k + 1..];
    assert |r| == |s| - 1;
    forall i, j | 0 <= i < j < |r|
      ensures r[i].code != r[j].code
    {
      CutAt(s, k, i);
      CutAt(s, k, j);
    }
    forall i | 0 <= i < |r|
      ensures r[i].code != s[k].code
    {
      CutAt(s, k, i);
    }
    forall c | c != s[k].code
      ensures HasCode(r, c) <==> HasCode(s, c)
    {
      if HasCode(s, c) {
        var i :| 0 <= i < |s| && s[i].code == c;
        CutAt(s, k, if i < k then i else i - 1);
        assert r[if i < k then i else i - 1].code == c;
      }
      if HasCode(r, c) {
        var i :| 0 <= i < |r| && r[i].code == c;
        CutAt(s, k, i);
        assert s[if i < k then i else i + 1].code == c;
      }
    }
  }

  /**
   * When two records share a code (possible after a load), deletion removes
   * only the first of them and the code is still present afterwards.
   */
  lemma {:induction false} RemoveFirstLeavesLaterDuplicate(s: seq<Item>, code: string, i: nat, j: nat)
    requires i < j < |s| && s[i].code == code && s[j].code == code
    ensures !UniqueCodes(s)
    ensures |RemoveFirst(s, code)| == |s| - 1
    ensures HasCode(RemoveFirst(s, code), code)
  {
    assert s[i].code == s[j].code;
    var t := s[1..];
    if s[0].code == code {
      assert RemoveFirst(s, code) == t;
      assert t[j - 1] == s[j];
    } else {
      assert t[i - 1] == s[i] && t[j - 1] == s[j];
      RemoveFirstLeavesLaterDuplicate(t, code, i - 1, j - 1);
      var rest := RemoveFirst(t, code);
      assert RemoveFirst(s, code) == [s[0]] + rest;
      var w :| 0 <= w < |rest| && rest[w].code == code;
      assert ([s[0]] + rest)[w + 1] == rest[w];
    }
  }

  /** Reference definition of the quantity update: rewrite the first record carrying `code`. */
  function SetFirstQuantity(s: seq<Item>, code: string, q: int32): seq<Item> {
    if s == [] then []
    else if s[0].code == code then [s[0].WithQuantity(q)] + s[1..]
    else [s[0]] + SetFirstQuantity(s[1..], code, q)
  }

  /** Updating at a known first match rewrites exactly that record. */
  lemma {:induction false} SetFirstQuantityAtIndex(s: seq<Item>, code: string, q: int32, k: nat)
    requires k < |s| && s[k].code == code
    requires forall j :: 0 <= j < k ==> s[j].code != code
    ensures SetFirstQuantity(s, code, q) == s[k := s[k].WithQuantity(q)]
  {
    if k > 0 {
      var t := s[1..];
      SetFirstQuantityAtIndex(t, code, q, k - 1);
      assert [s[0]] + t[k - 1 := t[k - 1].WithQuantity(q)] == s[k := s[k].WithQuantity(q)];
    }
  }

  /** Updating a code no record carries changes nothing. */
  lemma {:induction false} SetFirstQuantityAbsent(s: seq<Item>, code: string, q: int32)
    requires forall j :: 0 <= j < |s| ==> s[j].code != code
    ensures SetFirstQuantity(s, code, q) == s
  {
    if s != [] {
      SetFirstQuantityAbsent(s[1..], code, q);
    }
  }

  /** The update touches exactly the first matching record, in place. */
  lemma {:induction false} SetFirstQuantityAt(s: seq<Item>, code: string, q: int32)
    ensures FirstIndex(s, code).None? ==> SetFirstQuantity(s, code, q) == s
    ensures FirstIndex(s, code).Some? ==>
      var k := FirstIndex(s, code).value;
      SetFirstQuantity(s, code, q) == s[k := s[k].WithQuantity(q)]
  {
    match FirstIndex(s, code)
    case None => SetFirstQuantityAbsent(s, code, q);
    case Some(k) => SetFirstQuantityAtIndex(s, code, q, k);
  }

  /**
   * The update keeps the length, every name, code and price, and every quantity
   * but the first match's; so it keeps the invariant and the set of codes.
   */
  lemma {:induction false} SetFirstQuantityKeeps(s: seq<Item>, code: string, q: int32)
    ensures |SetFirstQuantity(s, code, q)| == |s|
    ensures forall i :: 0 <= i < |s| ==>
      var r := SetFirstQuantity(s, code, q);
      r[i].name == s[i].name && r[i].code == s[i].code && r[i].price == s[i].price &&
      (FirstIndex(s, code) != Some(i) ==> r[i] == s[i])
    ensures FirstIndex(s, code).Some? ==>
      SetFirstQuantity(s, code, q)[FirstIndex(s, code).value].quantity == q
    ensures UniqueCodes(s) ==> UniqueCodes(SetFirstQuantity(s, code, q))
    ensures forall c :: HasCode(SetFirstQuantity(s, code, q), c) <==> HasCode(s, c)
  {
    SetFirstQuantityAt(s, code, q);
    var r := SetFirstQuantity(s, code, q);
    forall c ensures HasCode(r, c) <==> HasCode(s, c) {
      if HasCode(s, c) {
        var i :| 0 <= i < |s| && s[i].code == c;
        assert r[i].code == c;
      }
    }
  }
}
