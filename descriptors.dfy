/**
 * Field descriptors (`model_field_t`), the sentinel that ends a descriptor
 * table, the descriptor-building macros, and the addresses that the
 * reflection helpers FIELD_CHANGED and FIELD_NOT_NULL compute from a
 * descriptor and the type-indexed size table.
 */
module FieldDescriptors {
  import opened Wrappers
  import opened ModelTypes
  import opened ModelFlags
  import opened MemberLayout

  /**
   * Metadata of one field: label key, wire name, type, offset of the value in
   * the record struct, legal values of an enumerated field, and flags.
   * NULL pointers are None.
   */
  datatype FieldDescriptor = FieldDescriptor(
    i18nKey: Option<string>,
    wireName: Option<string>,
    typ: FieldType,
    offset: nat,
    enumValues: Option<seq<string>>,
    flags: bv32)

  /**
   * The entity descriptor's data members: instance size, type name, field
   * table as declared (sentinel included), the number of entries before the
   * sentinel, and the primary-key and display-name fields as indexes into the
   * table. The function-pointer and backend members are not modelled.
   */
  datatype EntityDescriptor = EntityDescriptor(
    size: nat,
    name: string,
    fields: seq<FieldDescriptor>,
    fieldsCount: nat,
    pk: Option<nat>,
    nameField: Option<nat>)

  /** The all-zero entry that terminates a descriptor table. */
  function Sentinel(): (r: FieldDescriptor)
    ensures IsSentinel(r) && r.typ == Int
  {
    FieldDescriptor(None, None, FromTag(0).value, 0, None, NONE)
  }

  predicate IsSentinel(f: FieldDescriptor)
  {
    f.i18nKey.None? && f.wireName.None? && Tag(f.typ) == 0 &&
    f.offset == 0 && f.enumValues.None? && f.flags == 0
  }

  /**
   * In a struct with distinct member names, f's offset is the laid-out value
   * offset of the member called name, whatever f's type is, and f describes
   * that member exactly when f's type is stored the way that member is.
   */
  ghost predicate LocatesMember(abi: Abi, members: seq<MemberDecl>, name: string, f: FieldDescriptor)
    requires ValidAbi(abi)
  {
    UniqueNames(members) ==>
      forall k :: 0 <= k < |members| && members[k].name == name ==>
        f.offset == Layout(abi, members)[k].value &&
        (Describes(abi, members, k, f) <==> StorageOf(f.typ) == StorageOf(members[k].typ))
  }

  /**
   * A descriptor for a non-enumerated field: the given label, wire name, type
   * and flags, no legal values, and the offset of the named struct member.
   */
  function DeclFieldSimple(abi: Abi, members: seq<MemberDecl>, i18nName: string,
                           wireName: string, memberName: string, typ: FieldType,
                           flags: bv32): (r: FieldDescriptor)
    requires ValidAbi(abi) && IndexOf(members, memberName).Some?
    ensures r.typ == typ && r.wireName == Some(wireName) && r.i18nKey == Some(i18nName)
    ensures r.enumValues.None? && r.flags == flags && !IsSentinel(r)
    ensures LocatesMember(abi, members, memberName, r)
  {
    FieldDescriptor(Some(i18nName), Some(wireName), typ,
                    OffsetOf(abi, members, memberName), None, flags)
  }

  /** A descriptor for an int member, named on the wire as in the struct. */
  function DeclFieldInt(abi: Abi, members: seq<MemberDecl>, i18nName: string,
                        name: string, flags: bv32): (r: FieldDescriptor)
    requires ValidAbi(abi) && IndexOf(members, name).Some?
    ensures r.typ == Int && r.wireName == Some(name) && r.i18nKey == Some(i18nName)
    ensures r.enumValues.None? && r.flags == flags && !IsSentinel(r)
    ensures LocatesMember(abi, members, name, r)
  {
    DeclFieldSimple(abi, members, i18nName, name, name, Int, flags)
  }

  /** A descriptor for a bool member, named on the wire as in the struct. */
  function DeclFieldBool(abi: Abi, members: seq<MemberDecl>, i18nName: string,
                         name: string, flags: bv32): (r: FieldDescriptor)
    requires ValidAbi(abi) && IndexOf(members, name).Some?
    ensures r.typ == Bool && r.wireName == Some(name) && r.i18nKey == Some(i18nName)
    ensures r.enumValues.None? && r.flags == flags && !IsSentinel(r)
    ensures LocatesMember(abi, members, name, r)
  {
    DeclFieldSimple(abi, members, i18nName, name, name, Bool, flags)
  }

  /** A descriptor for a date member, named on the wire as in the struct. */
  function DeclFieldDate(abi: Abi, members: seq<MemberDecl>, i18nName: string,
                         name: string, flags: bv32): (r: FieldDescriptor)
    requires ValidAbi(abi) && IndexOf(members, name).Some?
    ensures r.typ == Date && r.wireName == Some(name) && r.i18nKey == Some(i18nName)
    ensures r.enumValues.None? && r.flags == flags && !IsSentinel(r)
    ensures LocatesMember(abi, members, name, r)
  {
    DeclFieldSimple(abi, members, i18nName, name, name, Date, flags)
  }

  /** A descriptor for a string member, named on the wire as in the struct. */
  function DeclFieldString(abi: Abi, members: seq<MemberDecl>, i18nName: string,
                           name: string, flags: bv32): (r: FieldDescriptor)
    requires ValidAbi(abi) && IndexOf(members, name).Some?
    ensures r.typ == String && r.wireName == Some(name) && r.i18nKey == Some(i18nName)
    ensures r.enumValues.None? && r.flags == flags && !IsSentinel(r)
    ensures LocatesMember(abi, members, name, r)
  {
    DeclFieldSimple(abi, members, i18nName, name, name, String, flags)
  }

  /** A descriptor for a date-time member, named on the wire as in the struct. */
  function DeclFieldDateTime(abi: Abi, members: seq<MemberDecl>, i18nName: string,
                             name: string, flags: bv32): (r: FieldDescriptor)
    requires ValidAbi(abi) && IndexOf(members, name).Some?
    ensures r.typ == DateTime && r.wireName == Some(name) && r.i18nKey == Some(i18nName)
    ensures r.enumValues.None? && r.flags == flags && !IsSentinel(r)
    ensures LocatesMember(abi, members, name, r)
  {
    DeclFieldSimple(abi, members, i18nName, name, name, DateTime, flags)
  }

  /** A descriptor for an enumerated member, carrying its legal values. */
  function DeclFieldEnum(abi: Abi, members: seq<MemberDecl>, i18nName: string,
                         name: string, flags: bv32, enumValues: seq<string>): (r: FieldDescriptor)
    requires ValidAbi(abi) && IndexOf(members, name).Some?
    ensures r.typ == Enum && r.wireName == Some(name) && r.i18nKey == Some(i18nName)
    ensures r.enumValues == Some(enumValues) && r.flags == flags && !IsSentinel(r)
    ensures LocatesMember(abi, members, name, r)
  {
    FieldDescriptor(Some(i18nName), Some(name), Enum,
                    OffsetOf(abi, members, name), Some(enumValues), flags)
  }

  /**
   * The address FIELD_CHANGED reads: offset plus the size table's entry for
   * the type, which with an honest table is the first byte after the value.
   */
  function ChangedAddress(sizeMap: seq<nat>, f: FieldDescriptor): (r: nat)
    requires |sizeMap| == TYPE_COUNT
    ensures f.offset <= r
    ensures forall abi :: Honours(abi, sizeMap) ==> r == f.offset + SizeOf(abi, StorageOf(f.typ))
  {
    f.offset + sizeMap[Tag(f.typ)]
  }

  /** The address FIELD_NOT_NULL reads: one bool further than FIELD_CHANGED. */
  function NotNullAddress(abi: Abi, sizeMap: seq<nat>, f: FieldDescriptor): (r: nat)
    requires |sizeMap| == TYPE_COUNT
    ensures r == ChangedAddress(sizeMap, f) + abi.boolSize
    ensures Honours(abi, sizeMap) ==> r == f.offset + SizeOf(abi, StorageOf(f.typ)) + abi.boolSize
  {
    f.offset + sizeMap[Tag(f.typ)] + abi.boolSize
  }

  /** The size table gives every field type the size of the C type it is stored as. */
  ghost predicate Honours(abi: Abi, sizeMap: seq<nat>)
  {
    |sizeMap| == TYPE_COUNT &&
    forall t: FieldType :: sizeMap[Tag(t)] == SizeOf(abi, StorageOf(t))
  }

  /** f is a descriptor for member k of the record struct. */
  ghost predicate Describes(abi: Abi, members: seq<MemberDecl>, k: int, f: FieldDescriptor)
    requires ValidAbi(abi)
  {
    0 <= k < |members| &&
    f.offset == Layout(abi, members)[k].value &&
    StorageOf(f.typ) == StorageOf(members[k].typ)
  }

  /**
   * Enumerated members share int storage and date-time members share time_t
   * storage, so a size table that honours the storage gives them equal sizes.
   */
  lemma AliasedTypesShareSizes(abi: Abi, sizeMap: seq<nat>)
    requires Honours(abi, sizeMap)
    ensures sizeMap[Tag(Enum)] == sizeMap[Tag(Int)]
    ensures sizeMap[Tag(DateTime)] == sizeMap[Tag(Date)]
  {
    assert sizeMap[Tag(Enum)] == SizeOf(abi, StorageOf(Enum));
    assert sizeMap[Tag(DateTime)] == SizeOf(abi, StorageOf(DateTime));
  }

  /**
   * With a size table that honours the storage types, the reflection helpers
   * read exactly the `_changed` and `_not_null` flags laid out for the member.
   */
  lemma ReflectionHitsFlags(abi: Abi, sizeMap: seq<nat>, members: seq<MemberDecl>,
                            k: nat, f: FieldDescriptor)
    requires ValidAbi(abi) && Honours(abi, sizeMap)
    requires Describes(abi, members, k, f)
    ensures ChangedAddress(sizeMap, f) == Layout(abi, members)[k].changed
    ensures NotNullAddress(abi, sizeMap, f) == Layout(abi, members)[k].notNull
  {
    LayoutShape(abi, members);
    assert sizeMap[Tag(f.typ)] == SizeOf(abi, StorageOf(f.typ));
  }

  /**
   * Conversely, a size table that is wrong for a descriptor's type makes
   * FIELD_CHANGED miss the `_changed` flag of the member it describes.
   */
  lemma WrongSizeMisses(abi: Abi, sizeMap: seq<nat>, members: seq<MemberDecl>,
                        k: nat, f: FieldDescriptor)
    requires ValidAbi(abi) && |sizeMap| == TYPE_COUNT
    requires Describes(abi, members, k, f)
    requires sizeMap[Tag(f.typ)] != SizeOf(abi, StorageOf(f.typ))
    ensures ChangedAddress(sizeMap, f) != Layout(abi, members)[k].changed
  {
    LayoutShape(abi, members);
  }

  /**
   * A descriptor built by a field macro for a member of the struct describes
   * that member, provided the macro's type is stored the way the member is.
   */
  lemma DeclaredFieldDescribesMember(abi: Abi, members: seq<MemberDecl>, k: nat,
                                     i18nName: string, typ: FieldType, flags: bv32,
                                     enumValues: seq<string>)
    requires ValidAbi(abi) && UniqueNames(members) && k < |members|
    requires StorageOf(typ) == StorageOf(members[k].typ)
    ensures IndexOf(members, members[k].name) == Some(k)
    ensures Describes(abi, members, k,
      DeclFieldSimple(abi, members, i18nName, members[k].name, members[k].name, typ, flags))
    ensures StorageOf(members[k].typ) == CInt ==>
      Describes(abi, members, k,
        DeclFieldEnum(abi, members, i18nName, members[k].name, flags, enumValues))
  {
    var name := members[k].name;
    assert IndexOf(members, name) == Some(k);
    var f := DeclFieldSimple(abi, members, i18nName, name, name, typ, flags);
    assert f.offset == Layout(abi, members)[k].value;
  }
}
