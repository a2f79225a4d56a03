/**
 * The field-type enumeration of a record type and the C storage types that
 * back each kind of member, with their sizes kept abstract.
 */
module ModelTypes {
  import opened Wrappers

  /** The kind of value a field holds, in declaration order of the C enumeration. */
  datatype FieldType = Int | Bool | Enum | Date | String | DateTime

  /** The tag of the last enumerator: the DateTime one. */
  const TYPE_LAST: nat := 5

  /** The number of field types, i.e. the length of the type-indexed size table. */
  const TYPE_COUNT: nat := TYPE_LAST + 1

  /** The integer value the C enumeration gives each field type. */
  function Tag(t: FieldType): (n: nat)
    ensures n <= TYPE_LAST
    ensures FromTag(n) == Some(t)
  {
    match t
    case Int => 0
    case Bool => 1
    case Enum => 2
    case Date => 3
    case String => 4
    case DateTime => 5
  }

  /** The field type an integer tag denotes, if any. */
  function FromTag(n: nat): Option<FieldType>
  {
    if n == 0 then Some(Int)
    else if n == 1 then Some(Bool)
    else if n == 2 then Some(Enum)
    else if n == 3 then Some(Date)
    else if n == 4 then Some(String)
    else if n == 5 then Some(DateTime)
    else None
  }

  /** Tags and field types are in one-to-one correspondence on 0 .. TYPE_LAST. */
  lemma TagRoundTrip(t: FieldType, n: nat)
    ensures Tag(DateTime) == TYPE_LAST
    ensures FromTag(Tag(t)) == Some(t)
    ensures FromTag(n).Some? <==> n <= TYPE_LAST
    ensures FromTag(n).Some? ==> Tag(FromTag(n).value) == n
  {
  }

  /** The C type a member is declared with. */
  datatype CType = CInt | CBool | CTime | CCharPtr

  /**
   * The C type of the storage that each member declaration macro expands to:
   * enumerated members are stored as int and date-time members as time_t.
   */
  function StorageOf(t: FieldType): CType
  {
    match t
    case Int => CInt
    case Enum => CInt
    case Bool => CBool
    case Date => CTime
    case DateTime => CTime
    case String => CCharPtr
  }

  /**
   * The platform's sizes and alignments, in bytes. bool has alignment 1,
   * which is what lets its flags follow a value with no padding.
   */
  datatype Abi = Abi(
    intSize: nat, boolSize: nat, timeSize: nat, ptrSize: nat,
    intAlign: nat, timeAlign: nat, ptrAlign: nat)

  predicate ValidAbi(abi: Abi)
  {
    abi.intSize > 0 && abi.boolSize > 0 && abi.timeSize > 0 && abi.ptrSize > 0 &&
    abi.intAlign > 0 && abi.timeAlign > 0 && abi.ptrAlign > 0
  }

  /** sizeof of a C storage type. */
  function SizeOf(abi: Abi, c: CType): nat
  {
    match c
    case CInt => abi.intSize
    case CBool => abi.boolSize
    case CTime => abi.timeSize
    case CCharPtr => abi.ptrSize
  }

  /** The alignment of a C storage type. */
  function AlignOf(abi: Abi, c: CType): (a: nat)
    requires ValidAbi(abi)
    ensures a > 0
  {
    match c
    case CInt => abi.intAlign
    case CBool => 1
    case CTime => abi.timeAlign
    case CCharPtr => abi.ptrAlign
  }

  /**
   * The storage classes: int and enum members share `int`, date and date-time
   * members share `time_t`, and bool and string members are alone in theirs.
   */
  lemma StorageClasses(t: FieldType)
    ensures StorageOf(t) == CInt <==> t == Int || t == Enum
    ensures StorageOf(t) == CTime <==> t == Date || t == DateTime
    ensures StorageOf(t) == CBool <==> t == Bool
    ensures StorageOf(t) == CCharPtr <==> t == String
  {
  }
}
