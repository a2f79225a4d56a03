# Entity model of ovh-cli: change-tracked records and their field metadata

This project models the record-modelling header of ovh-cli, `model.h`.
A record type is a C struct that starts with the instance header (`modelized_t`: an aggregate
`changed` flag, a `persisted` flag and a back-reference to the entity descriptor). After the
header, each member is declared by a `DECL_MEMBER_*` macro as a value followed by two
shadow bools, `<member>_changed` and `<member>_not_null`.
A table of field descriptors (`model_field_t`), built with the `DECL_FIELD_*` macros and
ended by a sentinel, gives each field's wire name, type, offset and flags.
The setter macros `MODELIZED_SET`, `MODELIZED_NULL` and `MODELIZED_SET_STRING` update one member
and its flags in place. Backends read the flags back without knowing the struct type, through
`FIELD_CHANGED` and `FIELD_NOT_NULL`, which compute a byte address from the descriptor
and the run-time size table `model_type_size_map`.

Modules, one per concern of the header:

- `ModelTypes` (`types.dfy`): the field-type enumeration and its integer tags. It also holds the
  C storage type behind each member macro, and the platform's sizes and alignments as an
  abstract `Abi` record.
- `ModelFlags` (`flags.dfy`): the flag bitmask as `bv32` (the descriptor's `uint32_t`).
- `MemberLayout` (`layout.dfy`): where the member macros place the value and the two flags of each
  member, with C alignment padding before each value. Also defines `offsetof`.
- `FieldDescriptors` (`descriptors.dfy`): `model_field_t`, the sentinel, the `DECL_FIELD_*`
  macros, the data members of `model_t`, and the addresses the reflection helpers compute.
- `Modelized` (`instance.dfy`): the `Instance` class. Its fields are the header fields and a
  `slots` array, one slot per member holding a tagged value and the two flags. The three setters
  are methods that change the instance in place. The two reflection helpers are functions that
  read a flag at a byte address of the modelled instance.
- `UserRecord` (`scenario.dfy`): a client record type with the members `id`, `name` and `active`.
  A method drives it through the setters and reads the flags back through reflection.

Sizes are never fixed to numbers. `model_type_size_map` is declared `extern` and its contents are
not part of this model. So the table is a parameter, and the reflection results hold under the
condition `Honours`: each entry of the table must equal the size of the C type that members of that
field type are stored as. Enumerated members are stored as `int` and date-time members as `time_t`,
so these constraints apply to the table too.

Three behaviours of the header are modelled as written:

- With a NULL new value, `MODELIZED_SET_STRING` leaves the member NULL and still sets
  `_not_null` (model.h:71-75).
- The reflection helpers add the size table's entry for the field type, not the size of the
  member's own C type (model.h:103, model.h:106). So the model proves agreement with the layout
  only under `Honours`, and proves that a wrong entry misses the flag.
- `strdup`'s result is not checked (model.h:72). The model treats the copy as always succeeding.

The data of the header is modelled by two datatypes in `FieldDescriptors`, which are not rows of
the table below:

- `FieldDescriptor` (model.h:108-115) has the label key and wire name (None for NULL), the type,
  the offset, the legal values and a `bv32` flag mask.
- `EntityDescriptor` (model.h:124-134) has the instance size, the type name, the field table as declared
  (sentinel included), `fields_count`, and the primary-key and display-name fields as
  indexes into the table.

## Model

| member | source | states |
|---|---|---|
| `ModelTypes.TagRoundTrip` | model.h:8-16 | the six field types have the tags 0 to 5, and the last one, 5, is the date-time type; tag and type convert back and forth on 0..5, and larger tags name no type |
| `ModelFlags.FlagsAreDistinctBits` | model.h:20-25 | NONE is 0; RO, PRIMARY, UNIQUE, NULLABLE and INTERNAL are each a single bit, and no two share a bit |
| `ModelFlags.CombineTestsExactly` | model.h:20-25 | for any OR-combination of the named flags, testing a named flag with `&` is true exactly when that flag was one of those combined |
| `ModelFlags.NoneHasNoFlag` | model.h:20 | the NONE mask tests negative for every flag |
| `MemberLayout.MembersNeverOverlap` | model.h:79-82 | the byte ranges of two distinct members, each its value and both flags, are disjoint |
| `MemberLayout.IndexOf` | model.h:29-30 | the member that `offsetof` refers to is the first one declared with that name; no earlier member has it, and a missing name has no index |
| `ModelTypes.Tag` | model.h:8-16 | each field type's tag is at most the last tag, and converting the tag back gives the same type |
| `ModelTypes.StorageClasses` | model.h:84-100 | members of the int and enum types are stored as `int`, of the date and date-time types as `time_t`, of the bool type as `bool`, and of the string type as `char *`, and no other type is stored in any of these |
| `MemberLayout.HeaderSize` | model.h:136-140 | the instance header holds the `changed` and `persisted` bools, then the model pointer after at most one pointer alignment of padding |
| `MemberLayout.PlaceFromShape` | model.h:79-82 | laying out members from an offset puts each member's `_changed` flag right after its value (the value's storage size on) and its `_not_null` flag one bool later; each member starts at or after the end of every earlier one, and none before the starting offset |
| `MemberLayout.LayoutShape` | model.h:79-100 | the layout of a record struct has the same per-member shape and order, and no member starts inside the instance header |
| `MemberLayout.OffsetOf` | model.h:30 | `offsetof` of a member lies after the header; in a struct with distinct member names it is that member's laid-out value offset |
| `FieldDescriptors.Sentinel` | model.h:117-118 | the sentinel has NULL label and wire name, the type with tag 0 (the int type), offset 0, NULL legal values and flags 0 |
| `FieldDescriptors.DeclFieldSimple` | model.h:29-30 | the descriptor has the given label, wire name, type and flags and NULL legal values, and is not a sentinel; in a struct with distinct names its offset is the named member's laid-out value offset, whatever the type, and it describes that member exactly when its type is stored like that member |
| `FieldDescriptors.DeclFieldInt` | model.h:32-33 | an int descriptor whose wire name is the member's name, with no legal values and not a sentinel; in a struct with distinct names its offset is the named member's laid-out value offset, and it describes the named member exactly when that member is stored as `int` |
| `FieldDescriptors.DeclFieldBool` | model.h:35-36 | a bool descriptor whose wire name is the member's name, with no legal values and not a sentinel; in a struct with distinct names its offset is the named member's laid-out value offset, and it describes the named member exactly when that member is stored as `bool` |
| `FieldDescriptors.DeclFieldDate` | model.h:38-39 | a date descriptor whose wire name is the member's name, with no legal values and not a sentinel; in a struct with distinct names its offset is the named member's laid-out value offset, and it describes the named member exactly when that member is stored as `time_t` |
| `FieldDescriptors.DeclFieldString` | model.h:41-42 | a string descriptor whose wire name is the member's name, with no legal values and not a sentinel; in a struct with distinct names its offset is the named member's laid-out value offset, and it describes the named member exactly when that member is stored as `char *` |
| `FieldDescriptors.DeclFieldDateTime` | model.h:44-45 | a date-time descriptor whose wire name is the member's name, with no legal values and not a sentinel; in a struct with distinct names its offset is the named member's laid-out value offset, and it describes the named member exactly when that member is stored as `time_t` |
| `FieldDescriptors.DeclFieldEnum` | model.h:47-48 | an enum descriptor whose wire name is the member's name, carrying the supplied legal values, not a sentinel; in a struct with distinct names its offset is the named member's laid-out value offset, and it describes the named member exactly when that member is stored as `int` |
| `FieldDescriptors.ChangedAddress` | model.h:102-103 | the address FIELD_CHANGED reads is at or after the field's offset; with an honest size table it is the offset plus the size of the field's storage type |
| `FieldDescriptors.NotNullAddress` | model.h:105-106 | the address FIELD_NOT_NULL reads is one bool after FIELD_CHANGED's; with an honest size table it is the offset plus the storage size plus one bool |
| `FieldDescriptors.DeclaredFieldDescribesMember` | model.h:29-48 | in a struct with distinct member names, a descriptor built for member k with a type stored like k's describes member k: its offset is k's value offset (also for the enumerated macro on an int-stored member) |
| `FieldDescriptors.AliasedTypesShareSizes` | model.h:84-100 | a size table that honours the member storage gives the enumerated type the int entry and the date-time type the date entry |
| `FieldDescriptors.ReflectionHitsFlags` | model.h:102-106 | with an honest size table, the address FIELD_CHANGED computes for a descriptor of member k is k's `_changed` flag, and FIELD_NOT_NULL's is k's `_not_null` flag |
| `FieldDescriptors.WrongSizeMisses` | model.h:102-106 | for any struct, member k and descriptor of member k, a size-table entry for the descriptor's type that differs from its storage size makes FIELD_CHANGED miss k's `_changed` flag |
| `Modelized.ReflectedFlagsAreSlots` | model.h:102-106 | with an honest size table, reading the instance's bytes at the FIELD_CHANGED and FIELD_NOT_NULL addresses of a descriptor of member k yields exactly k's two stored flags |
| `Modelized.Instance.constructor` | model.h:136-140 | an instance with the given header fields and a slot per member, each of the member's storage type |
| `Modelized.Instance.Set` | model.h:57-63 | the member holds the new value and is marked changed and not null; the instance is marked changed; every other slot, `persisted` and the model reference are unchanged |
| `Modelized.Instance.SetNull` | model.h:50-55 | the member is marked changed and null with its stored value untouched; the instance is marked changed; nothing else changes |
| `Modelized.Instance.SetString` | model.h:65-77 | the member's old buffer, if any, is released; the member then holds a fresh private copy of the new string, or NULL when the new value is NULL; either way it is marked changed and not null, and the instance is changed; nothing else changes |
| `Modelized.Instance.FieldChanged` | model.h:102-103 | for a descriptor of member k and an honest size table, the flag read is member k's current `_changed` flag |
| `Modelized.Instance.FieldNotNull` | model.h:105-106 | for a descriptor of member k and an honest size table, the flag read is member k's current `_not_null` flag |
| `UserRecord.UserFields` | model.h:29-48 | the User table's three descriptors each describe their own member, none is a sentinel, the fourth entry is the sentinel, and the PRIMARY and NULLABLE flags test as declared |
| `UserRecord.SetThenReflect` | model.h:50-77 | after setting `name` to "Alice" and nulling `active`, reflection reports `name` changed and not null, `active` changed and null, `id` unchanged; the name is a copy of "Alice", and the instance is changed and not persisted |

## Left out

- `modelized_save`, `modelized_delete`, `modelized_copy`, `model_new`, `model_destroy`,
  `model_find_field_by_name`, `modelized_new`, `modelized_init`, `modelized_destroy` and
  `modelized_name_to_s` are only declared in the header. Their bodies are not part of this model,
  so no save, copy, lookup or construction semantics are claimed. Instances are built by a
  constructor from a given state instead.
- The backend table `model_backend_t` (init, free, all, save, delete): it calls foreign backend
  code that is not part of this model. For the same reason `EntityDescriptor` leaves out
  `backend`, `backend_data` and the `to_s` callback.
- The iterator, the error object, `common.h` and `command.h` are not part of this model.
- `model_to_table` and `complete_from_modelized`: display and shell-completion plumbing.
- The byte values of `model_type_size_map` and of the platform's C types: they are abstract
  parameters.
- `MAX_MODELIZED_NAME_LENGTH`: the header defines it (model.h:18) and uses it nowhere, so nothing
  here depends on it.
- `strdup` allocation failure: the header does not check for it. The model treats the copy
  as always succeeding.
- Memory release: a freed buffer is recorded in the ghost set `released`. Reuse of freed
  memory is not modelled.
- `Modelized.Instance.SetString`: the new value is a value evaluated once. The macro instead
  evaluates `new_value` again after the free (model.h:67-72). So `MODELIZED_SET_STRING(o, m, o->m)` reads
  the member after it was set to NULL, and leaves it NULL without touching freed memory. In the
  model that call is written `SetString(k, null)`. The `requires` that the new value is not the
  member's own buffer excludes passing that buffer through another pointer, which the macro
  would read after freeing it, and likewise any buffer released earlier (`s !in released`), which
  `strdup` would read as freed memory.
- Integer widths and C conversions: `Int32` fixes the `int` values at 32 bits while `Abi.intSize`
  stays an abstract size, and `time_t` values (`TimeVal`) are unbounded integers. `Set` requires
  the value to be of the member's storage kind, so the implicit C conversion of
  `(obj)->member = new_value` (model.h:59), such as an int other than 0 or 1 assigned to a bool
  member, is not modelled.
- C strings: a string is the array of its characters, and the terminating NUL is not
  represented. The copy takes the whole array. `strdup` would stop at a NUL inside it, a case
  that has no counterpart here.
- Layout alignment: padding is modelled as bringing each value to the next offset that is at or
  above the cursor and less than one alignment unit further. That the padded offset is a multiple of
  the alignment is not stated. `bool` is taken to have alignment 1. Trailing struct padding is
  not modelled.
- The label key text and the enum value strings are carried as opaque values.
- Whether flags such as NULLABLE or RO are enforced: no setter in the header checks them, and
  neither does the model.
