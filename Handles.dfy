/**
 * Typed element handles: an offset into an element buffer and a generation.
 *
 * A generation of IGNORED_GENERATION lets the holder ask for whatever element
 * occupies the offset; any other generation is checked by the kernel against
 * the buffer's current one.  The four kinds of handle share one
 * representation and differ only in a phantom type parameter, so an edge
 * handle cannot be passed where a point handle is expected.
 */
module Handles {

  const INVALID_OFFSET: nat := 0
  const IGNORED_GENERATION: nat := 0

  datatype EdgeKind = EdgeKind
  datatype FaceKind = FaceKind
  datatype VertexKind = VertexKind
  datatype PointKind = PointKind

  datatype ElementIndex<Kind> = ElementIndex(offset: nat, generation: nat)

  type EdgeIndex = ElementIndex<EdgeKind>
  type FaceIndex = ElementIndex<FaceKind>
  type VertexIndex = ElementIndex<VertexKind>
  type PointIndex = ElementIndex<PointKind>

  /** `operator bool`: a handle is truthy when its offset is above INVALID_OFFSET. */
  predicate IsTruthy<K>(h: ElementIndex<K>) {
    h.offset > INVALID_OFFSET
  }

  /** The default constructor, also the value of the static `Invalid` members. */
  function Invalid<K>(): (h: ElementIndex<K>)
    ensures h.offset == INVALID_OFFSET && h.generation == IGNORED_GENERATION
    ensures !IsTruthy(h)
  {
    ElementIndex(INVALID_OFFSET, IGNORED_GENERATION)
  }

  /** The single-argument constructor: the generation is left as "ignored". */
  function FromOffset<K>(offset: nat): (h: ElementIndex<K>)
    ensures h.offset == offset && h.generation == IGNORED_GENERATION
    ensures IsTruthy(h) <==> offset != INVALID_OFFSET
  {
    ElementIndex(offset, IGNORED_GENERATION)
  }

  /** The two-argument constructor. */
  function FromOffsetAndGeneration<K>(offset: nat, generation: nat): (h: ElementIndex<K>)
    ensures h.offset == offset && h.generation == generation
  {
    ElementIndex(offset, generation)
  }

  /** `Reset` overwrites both fields with the defaults. */
  function Reset<K>(h: ElementIndex<K>): (r: ElementIndex<K>)
    ensures r == Invalid() && !IsTruthy(r)
  {
    ElementIndex(INVALID_OFFSET, IGNORED_GENERATION)
  }

  /** `operator==` is strict: it compares the generation even when one side ignores it. */
  predicate Equal<K>(a: ElementIndex<K>, b: ElementIndex<K>)
  {
    a.offset == b.offset && a.generation == b.generation
  }

  /** `operator!=` is the negation of `operator==`. */
  predicate NotEqual<K>(a: ElementIndex<K>, b: ElementIndex<K>)
  {
    !Equal(a, b)
  }

  /** `operator<` orders by offset only. */
  predicate Less<K>(a: ElementIndex<K>, b: ElementIndex<K>)
  {
    a.offset < b.offset
  }

  /** `operator>` as written: it returns `Lhs < Rhs`. */
  predicate GreaterAsWritten<K>(a: ElementIndex<K>, b: ElementIndex<K>)
  {
    Less(a, b)
  }

  /** `operator>` as evidently intended: the converse of `operator<`. */
  predicate Greater<K>(a: ElementIndex<K>, b: ElementIndex<K>)
  {
    Less(b, a)
  }

  /** `GetTypeHash` of every handle kind hashes the offset alone. */
  function Hash<K>(h: ElementIndex<K>): nat
  {
    h.offset
  }

  /** `operator<<` on an archive persists the offset and nothing else. */
  function Save<K>(h: ElementIndex<K>): nat
  {
    h.offset
  }

  /** Loading an offset into an existing handle replaces only its offset. */
  function Load<K>(into: ElementIndex<K>, offset: nat): (r: ElementIndex<K>)
    ensures r.offset == offset && r.generation == into.generation
  {
    into.(offset := offset)
  }

  /** The character of a decimal digit. */
  function DigitChar(d: nat): (c: char)
    requires d < 10
    ensures '0' <= c <= '9' && c as int - '0' as int == d
  {
    ('0' as int + d) as char
  }

  /** The decimal numeral of n, most significant digit first, without leading zeros. */
  function Decimal(n: nat): (s: string)
    ensures |s| > 0 && (|s| > 1 ==> s[0] != '0')
    ensures forall i :: 0 <= i < |s| ==> '0' <= s[i] <= '9'
  {
    if n < 10 then [DigitChar(n)] else Decimal(n / 10) + [DigitChar(n % 10)]
  }

  /** The value a string of decimal digits denotes. */
  function ParseDecimal(s: string): nat
    requires forall i :: 0 <= i < |s| ==> '0' <= s[i] <= '9'
  {
    if |s| == 0 then 0 else ParseDecimal(s[..|s| - 1]) * 10 + (s[|s| - 1] as int - '0' as int)
  }

  /** `ToString`: "Invalid" for the invalid offset, otherwise the offset in decimal. */
  function ToString<K>(h: ElementIndex<K>): string {
    if h.offset == INVALID_OFFSET then "Invalid" else Decimal(h.offset)
  }

  // ---------------------------------------------------------------------
  // Properties

  /** Strict equality is exactly equality of the two values. */
  lemma EqualIsIdentity<K>(a: ElementIndex<K>, b: ElementIndex<K>)
    ensures Equal(a, b) <==> a == b
    ensures NotEqual(a, b) <==> a != b
  {
  }

  /** The same offset with different generations gives unequal handles. */
  lemma GenerationSeparates<K>(a: ElementIndex<K>, b: ElementIndex<K>)
    requires a.offset == b.offset && a.generation != b.generation
    ensures !Equal(a, b) && NotEqual(a, b)
  {
  }

  /** `<` cannot tell apart handles of one offset, even unequal ones. */
  lemma OrderIgnoresGeneration<K>(a: ElementIndex<K>, b: ElementIndex<K>)
    requires a.offset == b.offset
    ensures !Less(a, b) && !Less(b, a)
    ensures Equal(a, b) <==> a.generation == b.generation
  {
  }

  /** `<` is a strict order on offsets: irreflexive and transitive. */
  lemma LessIsStrictOrder<K>(a: ElementIndex<K>, b: ElementIndex<K>, c: ElementIndex<K>)
    ensures !Less(a, a)
    ensures Less(a, b) && Less(b, c) ==> Less(a, c)
    ensures Less(a, b) ==> !Less(b, a)
  {
  }

  /** Equal handles hash equally, and so do handles that differ only in generation. */
  lemma HashDependsOnOffsetOnly<K>(a: ElementIndex<K>, b: ElementIndex<K>)
    ensures Equal(a, b) ==> Hash(a) == Hash(b)
    ensures Hash(a) == Hash(b) <==> a.offset == b.offset
  {
  }

  /** A handle survives saving and loading into a default handle exactly when its generation is ignored. */
  lemma SaveLoadRoundTrip<K>(h: ElementIndex<K>)
    ensures Load(Invalid(), Save(h)) == h <==> h.generation == IGNORED_GENERATION
  {
  }

  /** The handle smoke test: defaults, truthiness, reset and strict equality. */
  lemma HandleSmokeTest()
    ensures !IsTruthy(Invalid<EdgeKind>())
    ensures IsTruthy(FromOffset<EdgeKind>(1))
    ensures !IsTruthy(Reset(FromOffset<EdgeKind>(1)))
    ensures Equal(Invalid<EdgeKind>(), Invalid<EdgeKind>())
    ensures NotEqual(FromOffset<EdgeKind>(1), Invalid<EdgeKind>())
    ensures Equal(FromOffset<EdgeKind>(1), FromOffset<EdgeKind>(1))
    ensures NotEqual(FromOffset<EdgeKind>(1), FromOffsetAndGeneration<EdgeKind>(1, 2))
    ensures Equal(FromOffsetAndGeneration<EdgeKind>(1, 2), FromOffsetAndGeneration<EdgeKind>(1, 2))
  {
  }

  /** As written, `a > b` holds for a = 1 and b = 2, and fails for a = 2 and b = 1. */
  lemma GreaterAsWrittenIsReversed()
    ensures GreaterAsWritten(FromOffset<EdgeKind>(1), FromOffset<EdgeKind>(2))
    ensures !GreaterAsWritten(FromOffset<EdgeKind>(2), FromOffset<EdgeKind>(1))
  {
  }

  /** The corrected `>` is the converse of `<` and, like it, a strict order. */
  lemma GreaterIsConverseOfLess<K>(a: ElementIndex<K>, b: ElementIndex<K>)
    ensures Greater(a, b) <==> Less(b, a)
    ensures Greater(a, b) <==> a.offset > b.offset
    ensures !(Greater(a, b) && Less(a, b))
  {
  }

  /** Reading a numeral back gives the number. */
  lemma {:induction false} DecimalRoundTrip(n: nat)
    ensures ParseDecimal(Decimal(n)) == n
  {
    if n >= 10 {
      DecimalRoundTrip(n / 10);
      var s := Decimal(n / 10) + [DigitChar(n % 10)];
      assert s[..|s| - 1] == Decimal(n / 10);
    }
  }

  /** `ToString` says "Invalid" exactly for the invalid offset, and otherwise spells out the offset. */
  lemma ToStringNamesOffset<K>(h: ElementIndex<K>)
    ensures ToString(h) == "Invalid" <==> h.offset == INVALID_OFFSET
    ensures h.offset != INVALID_OFFSET ==>
      (forall i :: 0 <= i < |ToString(h)| ==> '0' <= ToString(h)[i] <= '9') && ParseDecimal(ToString(h)) == h.offset
    ensures ToString(FromOffset<K>(42)) == "42"
  {
    if h.offset != INVALID_OFFSET {
      DecimalRoundTrip(h.offset);
      assert ToString(h)[0] != 'I';
    }
  }
}
