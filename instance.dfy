/**
 * A record instance with per-field change tracking: the instance header
 * (aggregate `changed`, `persisted`, the model back-reference) and one slot
 * per declared member holding its value and its `_changed` and `_not_null`
 * flags; the three setters; and the two reflection reads.
 */
module Modelized {
  import opened Wrappers
  import opened ModelTypes
  import opened MemberLayout
  import opened FieldDescriptors

  /** The range of a C int. */
  newtype Int32 = x: int | -0x8000_0000 <= x < 0x8000_0000

  /**
   * A member's value, tagged by its C storage type. A C string is a heap
   * buffer of its characters (the terminating NUL is not modelled); a NULL
   * pointer is null.
   */
  datatype Value =
    | IntVal(i: Int32)
    | BoolVal(b: bool)
    | TimeVal(t: int)
    | StrVal(str: array?<char>)

  function KindOf(v: Value): CType
  {
    match v
    case IntVal(_) => CInt
    case BoolVal(_) => CBool
    case TimeVal(_) => CTime
    case StrVal(_) => CCharPtr
  }

  /** A member's value and its two shadow flags. */
  datatype Slot = Slot(value: Value, changed: bool, notNull: bool)

  /** Placements strictly increase: value, then `_changed`, then `_not_null`, then the next member. */
  ghost predicate Increasing(p: seq<Placement>)
  {
    (forall k :: 0 <= k < |p| ==> p[k].value < p[k].changed < p[k].notNull) &&
    (forall i, j :: 0 <= i < j < |p| ==> p[i].notNull < p[j].value)
  }

  lemma LayoutIncreasing(abi: Abi, members: seq<MemberDecl>)
    requires ValidAbi(abi)
    ensures Increasing(Layout(abi, members))
  {
    LayoutShape(abi, members);
    var p := Layout(abi, members);
    forall k | 0 <= k < |p| ensures p[k].value < p[k].changed < p[k].notNull {
      assert SizeOf(abi, StorageOf(members[k].typ)) > 0;
    }
    forall i, j | 0 <= i < j < |p| ensures p[i].notNull < p[j].value {
      assert End(abi, p[i]) <= p[j].value;
    }
  }

  /**
   * The flag stored at byte address addr of an instance whose members are
   * placed at p and hold slots s; None when no flag lives there.
   */
  function FlagAt(p: seq<Placement>, s: seq<Slot>, addr: nat): Option<bool>
    requires |p| == |s|
  {
    if p == [] then None
    else if addr == p[0].changed then Some(s[0].changed)
    else if addr == p[0].notNull then Some(s[0].notNull)
    else FlagAt(p[1..], s[1..], addr)
  }

  /** In an increasing layout, each member's flag addresses hold that member's flags. */
  lemma {:induction false} FlagAtMember(p: seq<Placement>, s: seq<Slot>, k: nat)
    requires |p| == |s| && Increasing(p) && k < |p|
    ensures FlagAt(p, s, p[k].changed) == Some(s[k].changed)
    ensures FlagAt(p, s, p[k].notNull) == Some(s[k].notNull)
  {
    if k > 0 {
      assert p[0].notNull < p[k].value;
      assert Increasing(p[1..]) by {
        forall i | 0 <= i < |p[1..]| ensures p[1..][i] == p[i + 1] { }
      }
      FlagAtMember(p[1..], s[1..], k - 1);
      assert p[1..][k - 1] == p[k] && s[1..][k - 1] == s[k];
    }
  }

  /**
   * What FIELD_CHANGED and FIELD_NOT_NULL read from an instance holding s,
   * for a descriptor of one of its members and an honest size table.
   */
  lemma ReflectedFlagsAreSlots(abi: Abi, sizeMap: seq<nat>, members: seq<MemberDecl>,
                               s: seq<Slot>, f: FieldDescriptor)
    requires ValidAbi(abi) && |sizeMap| == TYPE_COUNT && |s| == |members|
    ensures Honours(abi, sizeMap) ==> forall k :: Describes(abi, members, k, f) ==>
      k < |s| && FlagAt(Layout(abi, members), s, ChangedAddress(sizeMap, f)) == Some(s[k].changed)
    ensures Honours(abi, sizeMap) ==> forall k :: Describes(abi, members, k, f) ==>
      k < |s| && FlagAt(Layout(abi, members), s, NotNullAddress(abi, sizeMap, f)) == Some(s[k].notNull)
  {
    forall k | Honours(abi, sizeMap) && Describes(abi, members, k, f)
      ensures FlagAt(Layout(abi, members), s, ChangedAddress(sizeMap, f)) == Some(s[k].changed)
      ensures FlagAt(Layout(abi, members), s, NotNullAddress(abi, sizeMap, f)) == Some(s[k].notNull)
    {
      ReflectionHitsFlags(abi, sizeMap, members, k, f);
      LayoutIncreasing(abi, members);
      FlagAtMember(Layout(abi, members), s, k);
    }
  }

  /** An instance of a record struct whose members are `members`. */
  class Instance {
    var changed: bool
    var persisted: bool
    const model: EntityDescriptor
    const members: seq<MemberDecl>
    const slots: array<Slot>
    /** The string buffers the setters have released. */
    ghost var released: set<array<char>>

    /** One slot per member, each holding a value of the member's storage type. */
    ghost predicate Valid()
      reads this, slots
    {
      slots.Length == |members| &&
      forall k :: 0 <= k < slots.Length ==> KindOf(slots[k].value) == StorageOf(members[k].typ)
    }

    /** An instance in a given state; how the C code allocates one is not part of this model. */
    constructor (model: EntityDescriptor, members: seq<MemberDecl>, initial: seq<Slot>,
                 changed: bool, persisted: bool)
      requires |initial| == |members|
      requires forall k :: 0 <= k < |initial| ==> KindOf(initial[k].value) == StorageOf(members[k].typ)
      ensures Valid() && fresh(slots)
      ensures this.model == model && this.members == members && slots[..] == initial
      ensures this.changed == changed && this.persisted == persisted && released == {}
    {
      this.model := model;
      this.members := members;
      this.changed := changed;
      this.persisted := persisted;
      this.slots := new Slot[|initial|](i requires 0 <= i < |initial| => initial[i]);
      released := {};
    }

    /**
     * MODELIZED_SET: store a value of the member's type and mark the member
     * changed and not null, and the instance changed. A string member takes
     * the caller's pointer as it is, neither copied nor freeing the old one.
     */
    method Set(k: nat, v: Value)
      requires Valid() && k < slots.Length
      requires KindOf(v) == StorageOf(members[k].typ)
      modifies this`changed, slots
      ensures Valid()
      ensures slots[k] == Slot(v, true, true)
      ensures changed
      ensures forall j :: 0 <= j < slots.Length && j != k ==> slots[j] == old(slots[j])
      ensures persisted == old(persisted) && released == old(released)
    {
      slots[k] := Slot(v, true, true);
      changed := true;
    }

    /**
     * MODELIZED_NULL: mark the member changed and null, and the instance
     * changed; the stored value stays as it was.
     */
    method SetNull(k: nat)
      requires Valid() && k < slots.Length
      modifies this`changed, slots
      ensures Valid()
      ensures slots[k] == Slot(old(slots[k].value), true, false)
      ensures changed
      ensures forall j :: 0 <= j < slots.Length && j != k ==> slots[j] == old(slots[j])
      ensures persisted == old(persisted) && released == old(released)
    {
      slots[k] := Slot(slots[k].value, true, false);
      changed := true;
    }

    /**
     * MODELIZED_SET_STRING: release the member's current buffer, if any, then
     * store a private copy of the new string, or NULL when the new value is
     * NULL; either way the member is marked changed and not null, and the
     * instance changed. The new value must be neither the buffer being released
     * nor one released earlier.
     */
    method SetString(k: nat, s: array?<char>)
      requires Valid() && k < slots.Length
      requires members[k].typ == String
      requires s == null || (s != slots[k].value.str && s !in released)
      modifies this`changed, this`released, slots
      ensures Valid()
      ensures slots[k].value.StrVal? && slots[k].changed && slots[k].notNull
      ensures s == null ==> slots[k].value.str == null
      ensures s != null ==> slots[k].value.str != null && fresh(slots[k].value.str) &&
                            slots[k].value.str[..] == s[..]
      ensures released == old(released) +
        (if old(slots[k].value.str) == null then {} else {old(slots[k].value.str)})
      ensures changed
      ensures forall j :: 0 <= j < slots.Length && j != k ==> slots[j] == old(slots[j])
      ensures persisted == old(persisted)
    {
      var current := slots[k].value.str;
      if current != null {
        released := released + {current};
        slots[k] := Slot(StrVal(null), slots[k].changed, slots[k].notNull);
      }
      if s != null {
        var copy := new char[s.Length](i reads s requires 0 <= i < s.Length => s[i]);
        slots[k] := Slot(StrVal(copy), slots[k].changed, slots[k].notNull);
      }
      slots[k] := Slot(slots[k].value, true, true);
      changed := true;
    }

    /**
     * FIELD_CHANGED: the flag at the descriptor's offset plus the size table's
     * entry for its type. For a descriptor of member k and a size table that
     * honours the storage types, that is member k's `_changed` flag.
     */
    function FieldChanged(abi: Abi, sizeMap: seq<nat>, f: FieldDescriptor): (r: Option<bool>)
      reads this, slots
      requires Valid() && ValidAbi(abi) && |sizeMap| == TYPE_COUNT
      ensures Honours(abi, sizeMap) ==>
        forall k :: Describes(abi, members, k, f) ==> k < slots.Length && r == Some(slots[k].changed)
    {
      ReflectedFlagsAreSlots(abi, sizeMap, members, slots[..], f);
      FlagAt(Layout(abi, members), slots[..], ChangedAddress(sizeMap, f))
    }

    /**
     * FIELD_NOT_NULL: the flag one bool after FIELD_CHANGED's, which for a
     * descriptor of member k is member k's `_not_null` flag.
     */
    function FieldNotNull(abi: Abi, sizeMap: seq<nat>, f: FieldDescriptor): (r: Option<bool>)
      reads this, slots
      requires Valid() && ValidAbi(abi) && |sizeMap| == TYPE_COUNT
      ensures Honours(abi, sizeMap) ==>
        forall k :: Describes(abi, members, k, f) ==> k < slots.Length && r == Some(slots[k].notNull)
    {
      ReflectedFlagsAreSlots(abi, sizeMap, members, slots[..], f);
      FlagAt(Layout(abi, members), slots[..], NotNullAddress(abi, sizeMap, f))
    }
  }
}
