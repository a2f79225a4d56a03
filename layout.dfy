/**
 * Where the member declaration macros put things inside a record struct.
 * A record struct starts with the instance header (changed, persisted and
 * the model back-reference) and then declares each member as its value,
 * a `_changed` bool and a `_not_null` bool, in that order.
 */
module MemberLayout {
  import opened Wrappers
  import opened ModelTypes

  /** One member declaration: its name and the kind of member macro used. */
  datatype MemberDecl = MemberDecl(name: string, typ: FieldType)

  /** Byte offsets, from the start of the struct, of a member's three parts. */
  datatype Placement = Placement(value: nat, changed: nat, notNull: nat)

  /** The bytes of padding that bring offset n up to the next multiple of a. */
  function Pad(n: nat, a: nat): (p: nat)
    requires a > 0
    ensures p < a
  {
    (a - n % a) % a
  }

  /** The first offset at or after n aligned to a. */
  function Align(n: nat, a: nat): (r: nat)
    requires a > 0
    ensures n <= r < n + a
  {
    n + Pad(n, a)
  }

  /**
   * The size of the instance header: the `changed` and `persisted` bools,
   * then the model pointer at the next pointer-aligned offset.
   */
  function HeaderSize(abi: Abi): (s: nat)
    requires ValidAbi(abi)
    ensures 2 * abi.boolSize + abi.ptrSize <= s < 2 * abi.boolSize + abi.ptrAlign + abi.ptrSize
  {
    Align(2 * abi.boolSize, abi.ptrAlign) + abi.ptrSize
  }

  /** Places members one after another, starting at offset cursor. */
  function PlaceFrom(abi: Abi, cursor: nat, members: seq<MemberDecl>): (r: seq<Placement>)
    requires ValidAbi(abi)
    ensures |r| == |members|
    decreases |members|
  {
    if members == [] then []
    else
      var c := StorageOf(members[0].typ);
      var v := Align(cursor, AlignOf(abi, c));
      [Placement(v, v + SizeOf(abi, c), v + SizeOf(abi, c) + abi.boolSize)]
        + PlaceFrom(abi, v + SizeOf(abi, c) + 2 * abi.boolSize, members[1..])
  }

  /** The placement of every member of a record struct, after the header. */
  function Layout(abi: Abi, members: seq<MemberDecl>): (r: seq<Placement>)
    requires ValidAbi(abi)
    ensures |r| == |members|
  {
    PlaceFrom(abi, HeaderSize(abi), members)
  }

  /** Each member's flags sit right after its value: `_changed`, then `_not_null`. */
  ghost predicate FlagsFollowValues(abi: Abi, members: seq<MemberDecl>, r: seq<Placement>)
    requires |r| == |members|
  {
    forall k :: 0 <= k < |r| ==>
      r[k].changed == r[k].value + SizeOf(abi, StorageOf(members[k].typ)) &&
      r[k].notNull == r[k].changed + abi.boolSize
  }

  /** The first byte after a member's `_not_null` flag. */
  function End(abi: Abi, p: Placement): nat
  {
    p.notNull + abi.boolSize
  }

  /** A later member starts no earlier than the end of an earlier one. */
  ghost predicate InOrder(abi: Abi, r: seq<Placement>)
  {
    forall i, j :: 0 <= i < j < |r| ==> End(abi, r[i]) <= r[j].value
  }

  /**
   * The placement PlaceFrom computes: each member's flags follow its value,
   * members come in declaration order, and none starts before the cursor.
   */
  lemma {:induction false} PlaceFromShape(abi: Abi, cursor: nat, members: seq<MemberDecl>)
    requires ValidAbi(abi)
    ensures var r := PlaceFrom(abi, cursor, members);
      FlagsFollowValues(abi, members, r) && InOrder(abi, r) &&
      forall k :: 0 <= k < |r| ==> cursor <= r[k].value
    decreases |members|
  {
    if members != [] {
      var r := PlaceFrom(abi, cursor, members);
      var c := StorageOf(members[0].typ);
      var v := Align(cursor, AlignOf(abi, c));
      var next := v + SizeOf(abi, c) + 2 * abi.boolSize;
      var tail := PlaceFrom(abi, next, members[1..]);
      PlaceFromShape(abi, next, members[1..]);
      assert r == [Placement(v, v + SizeOf(abi, c), v + SizeOf(abi, c) + abi.boolSize)] + tail;
      forall k | 1 <= k < |r|
        ensures r[k] == tail[k - 1] && members[k] == members[1..][k - 1]
      {
      }
    }
  }

  /**
   * The layout that the member macros produce: flags follow values, members
   * come in declaration order, and none of them overlaps the header.
   */
  lemma LayoutShape(abi: Abi, members: seq<MemberDecl>)
    requires ValidAbi(abi)
    ensures var r := Layout(abi, members);
      FlagsFollowValues(abi, members, r) && InOrder(abi, r) &&
      forall k :: 0 <= k < |r| ==> HeaderSize(abi) <= r[k].value
  {
    PlaceFromShape(abi, HeaderSize(abi), members);
  }

  /**
   * The byte range a member occupies, its value and both flags, is
   * `[value, value + size + 2 * sizeof(bool))`; distinct members' ranges are disjoint.
   */
  lemma MembersNeverOverlap(abi: Abi, members: seq<MemberDecl>, i: nat, j: nat)
    requires ValidAbi(abi)
    requires i < |members| && j < |members| && i != j
    ensures var r := Layout(abi, members);
      var endI := r[i].value + SizeOf(abi, StorageOf(members[i].typ)) + 2 * abi.boolSize;
      var endJ := r[j].value + SizeOf(abi, StorageOf(members[j].typ)) + 2 * abi.boolSize;
      endI <= r[j].value || endJ <= r[i].value
  {
    LayoutShape(abi, members);
  }

  /** The index of the first member with the given name. */
  function IndexOf(members: seq<MemberDecl>, name: string): (r: Option<nat>)
    ensures r.Some? ==> r.value < |members| && members[r.value].name == name
    ensures r.Some? ==> forall j :: 0 <= j < r.value ==> members[j].name != name
    ensures r.None? ==> forall j :: 0 <= j < |members| ==> members[j].name != name
  {
    if members == [] then None
    else if members[0].name == name then Some(0)
    else match IndexOf(members[1..], name)
      case None => None
      case Some(k) => Some(k + 1)
  }

  /** A C struct never declares two members with one name. */
  ghost predicate UniqueNames(members: seq<MemberDecl>)
  {
    forall i, j :: 0 <= i < j < |members| ==> members[i].name != members[j].name
  }

  /**
   * offsetof(struct, name): the offset of the named member's value, which in
   * a struct with distinct member names is that member's laid-out value offset.
   */
  function OffsetOf(abi: Abi, members: seq<MemberDecl>, name: string): (r: nat)
    requires ValidAbi(abi)
    requires IndexOf(members, name).Some?
    ensures HeaderSize(abi) <= r
    ensures UniqueNames(members) ==> forall k :: 0 <= k < |members| && members[k].name == name ==>
      r == Layout(abi, members)[k].value
  {
    LayoutShape(abi, members);
    Layout(abi, members)[IndexOf(members, name).value].value
  }
}
