/** Field parameters, the values they describe, and the outcomes of encoding and decoding. */
module Common {
  import opened Bits

  datatype Option<+T> = None | Some(value: T)

  type Int64 = x: int | -0x8000_0000_0000_0000 <= x < 0x8000_0000_0000_0000
  type Uint64 = x: int | 0 <= x < 0x1_0000_0000_0000_0000
  type Size = x: int | 0 <= x < 0x8000_0000_0000_0000

  /** The errors the codec reports; `Panic` stands for a Go run-time panic. */
  datatype Error =
    | OverCapacity
    | BitsOverflow
    | AlignNotZero
    | RangeNegative
    | RangeTooLarge
    | LengthOutOfConstraint
    | OverUpperBound
    | UnderLowerBound
    | FixedSizeMismatch
    | DataOutOfRange
    | ConstraintMissing
    | UnsupportedExtension
    | UnsupportedType
    | NilValue
    | PresentZero
    | PresentTooBig
    | ReferenceEmpty
    | ReferenceMismatch
    | ReferenceUnresolved
    | ReferenceNotInteger
    | SequenceTruncated
    | TypeMismatch
    | Panic

  /** The outcome of an encoding step. */
  datatype Result<+T> = Ok(value: T) | Err(error: Error) {
    predicate IsFailure() { Err? }

    function PropagateFailure<U>(): Result<U>
      requires Err?
    { Err(error) }

    function Extract(): T
      requires Ok?
    { value }
  }

  /** The outcome of a decoding step, and the bit position of the cursor after it. */
  datatype Read<+T> = Got(value: T, pos: nat) | Fail(error: Error, pos: nat) {
    predicate IsFailure() { Fail? }

    function PropagateFailure<U>(): Read<U>
      requires Fail?
    { Fail(error, pos) }

    function Extract(): (T, nat)
      requires Got?
    { (value, pos) }
  }

  /** What the `aper` tag of a struct field says; a default value is never consulted by the codec. */
  datatype Params = Params(
    optional: bool,
    sizeExtensible: bool,
    valueExtensible: bool,
    sizeLowerBound: Option<Size>,
    sizeUpperBound: Option<Size>,
    valueLowerBound: Option<Int64>,
    valueUpperBound: Option<Int64>,
    openType: bool,
    referenceFieldName: string,
    referenceFieldValue: Option<Int64>
  )

  datatype Field = Field(name: string, pointer: bool, ty: Type, params: Params)

  /** A Go type the codec accepts: a struct is a CHOICE when its first field is called Present,
      in which case `alternatives` lists the fields after it. */
  datatype Type =
    | BitStringType
    | OctetStringType
    | PrintableStringType
    | ObjectIdentifierType
    | EnumeratedType
    | BoolType
    | IntType
    | SequenceType(fields: seq<Field>)
    | ChoiceType(alternatives: seq<Field>)
    | SliceType(elem: Type)

  /** A BIT STRING value is its list of effective bits; an absent OPTIONAL field is None; a Go string is
      its bytes; a nil pointer can stand for a value of any type. */
  datatype Value =
    | BitStringValue(bits: BitSeq)
    | OctetStringValue(bytes: seq<bv8>)
    | PrintableStringValue(text: seq<bv8>)
    | EnumeratedValue(n: Uint64)
    | BoolValue(b: bool)
    | IntValue(i: Int64)
    | SequenceValue(fields: seq<Option<Value>>)
    | ChoiceValue(present: Int64, alternative: Value)
    | SliceValue(elems: seq<Value>)
    | NilPointer

  /** Two's complement reading of a number modulo 2^64. */
  function WrapInt64(x: int): Int64 {
    var m := x % TWO_64;
    if m < 0x8000_0000_0000_0000 then m else m - TWO_64
  }

  function WrapUint64(x: int): Uint64 {
    x % TWO_64
  }
}
