/**
 * A client of the model: a "User" record type with an integer primary key
 * `id`, a string `name` and a nullable bool `active`, driven through the
 * setters and inspected through the reflection reads only.
 */
module UserRecord {
  import opened Wrappers
  import opened ModelTypes
  import opened ModelFlags
  import opened MemberLayout
  import opened FieldDescriptors
  import opened Modelized

  function UserMembers(): seq<MemberDecl>
  {
    [MemberDecl("id", Int), MemberDecl("name", String), MemberDecl("active", Bool)]
  }

  /** The User descriptor table, ended by the sentinel. */
  function UserFields(abi: Abi): (fs: seq<FieldDescriptor>)
    requires ValidAbi(abi)
    ensures |fs| == 4 && IsSentinel(fs[3])
    ensures forall i :: 0 <= i < 3 ==> !IsSentinel(fs[i]) && Describes(abi, UserMembers(), i, fs[i])
    ensures Has(fs[0].flags, PRIMARY) && !Has(fs[1].flags, PRIMARY) && Has(fs[2].flags, NULLABLE)
  {
    var m := UserMembers();
    DeclaredFieldDescribesMember(abi, m, 0, "id", Int, PRIMARY, []);
    DeclaredFieldDescribesMember(abi, m, 1, "name", String, NONE, []);
    DeclaredFieldDescribesMember(abi, m, 2, "active", Bool, NULLABLE, []);
    [DeclFieldInt(abi, m, "id", "id", PRIMARY),
     DeclFieldString(abi, m, "name", "name", NONE),
     DeclFieldBool(abi, m, "active", "active", NULLABLE),
     Sentinel()]
  }

  /**
   * Sets `name` to "Alice" and nulls `active` on a fresh, all-clear instance;
   * the reflection reads then report exactly the flags the setters wrote,
   * the untouched `id` stays clear, and the instance is changed but not persisted.
   */
  method SetThenReflect(abi: Abi, sizeMap: seq<nat>)
    returns (idChanged: Option<bool>, nameChanged: Option<bool>, nameNotNull: Option<bool>,
             activeChanged: Option<bool>, activeNotNull: Option<bool>,
             name: seq<char>, changed: bool, persisted: bool)
    requires ValidAbi(abi) && Honours(abi, sizeMap)
    ensures idChanged == Some(false)
    ensures nameChanged == Some(true) && nameNotNull == Some(true)
    ensures activeChanged == Some(true) && activeNotNull == Some(false)
    ensures name == "Alice" && changed && !persisted
  {
    var fields := UserFields(abi);
    // The instance size is the end of the last member; trailing padding is not modelled.
    var size := End(abi, Layout(abi, UserMembers())[2]);
    var model := EntityDescriptor(size, "user", fields, 3, Some(0), Some(1));
    var clear := [Slot(IntVal(0), false, false), Slot(StrVal(null), false, false),
                  Slot(BoolVal(false), false, false)];
    var user := new Instance(model, UserMembers(), clear, false, false);
    var alice := new char[5];
    alice[0], alice[1], alice[2], alice[3], alice[4] := 'A', 'l', 'i', 'c', 'e';
    user.SetString(1, alice);
    user.SetNull(2);
    idChanged := user.FieldChanged(abi, sizeMap, fields[0]);
    nameChanged := user.FieldChanged(abi, sizeMap, fields[1]);
    nameNotNull := user.FieldNotNull(abi, sizeMap, fields[1]);
    activeChanged := user.FieldChanged(abi, sizeMap, fields[2]);
    activeNotNull := user.FieldNotNull(abi, sizeMap, fields[2]);
    name := user.slots[1].value.str[..];
    changed, persisted := user.changed, user.persisted;
  }
}
