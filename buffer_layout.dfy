/**
 * The vertex buffer layout: an append-only list of vertex attribute
 * descriptors (type, component count, normalized flag) together with the
 * running stride, i.e. the byte size of one vertex record.
 */
module BufferLayout {

  /** OpenGL type codes, as the GL headers define them. */
  const GL_UNSIGNED_BYTE: nat := 0x1401
  const GL_UNSIGNED_INT: nat := 0x1405
  const GL_FLOAT: nat := 0x1406

  /** The three attribute types the layout knows the size of. */
  predicate IsKnownType(t: nat) {
    t == GL_FLOAT || t == GL_UNSIGNED_INT || t == GL_UNSIGNED_BYTE
  }

  /** One vertex attribute: its GL type code, component count and whether
      integer data is normalized to [0, 1] when read by the shader. */
  datatype VertexBufferElement = VertexBufferElement(glType: nat, count: nat, normalized: bool)

  /** Byte size of one component of the given type. Any other type is a
      failed assertion in the program, hence a precondition here. */
  function GetSizeOfType(t: nat): (r: nat)
    requires IsKnownType(t)
    ensures r == 1 || r == 4
    ensures r == 1 <==> t == GL_UNSIGNED_BYTE
  {
    if t == GL_FLOAT then 4
    else if t == GL_UNSIGNED_INT then 4
    else 1
  }

  predicate WellTyped(elements: seq<VertexBufferElement>) {
    forall i :: 0 <= i < |elements| ==> IsKnownType(elements[i].glType)
  }

  /** Bytes that one element occupies in a vertex record. */
  function ElementSize(e: VertexBufferElement): nat
    requires IsKnownType(e.glType)
  {
    e.count * GetSizeOfType(e.glType)
  }

  /** Sum of the element sizes, in insertion order. */
  function SumSizes(elements: seq<VertexBufferElement>): nat
    requires WellTyped(elements)
  {
    if elements == [] then 0
    else SumSizes(elements[..|elements| - 1]) + ElementSize(elements[|elements| - 1])
  }

  /** Byte offset of element i inside a vertex record: the sizes of the
      elements before it. Offset(elements, |elements|) is the whole record. */
  function Offset(elements: seq<VertexBufferElement>, i: nat): nat
    requires WellTyped(elements) && i <= |elements|
  {
    SumSizes(elements[..i])
  }

  lemma {:induction false} SumSizesConcat(a: seq<VertexBufferElement>, b: seq<VertexBufferElement>)
    requires WellTyped(a) && WellTyped(b)
    ensures WellTyped(a + b)
    ensures SumSizes(a + b) == SumSizes(a) + SumSizes(b)
    decreases |b|
  {
    if b == [] {
      assert a + b == a;
    } else {
      var b' := b[..|b| - 1];
      assert (a + b)[..|a + b| - 1] == a + b';
      SumSizesConcat(a, b');
    }
  }

  /** Offsets are prefix sums: they start at 0 and each one is the previous
      one plus the previous element's size. */
  lemma OffsetStep(elements: seq<VertexBufferElement>, i: nat)
    requires WellTyped(elements) && i < |elements|
    ensures Offset(elements, 0) == 0
    ensures Offset(elements, i + 1) == Offset(elements, i) + ElementSize(elements[i])
  {
    assert elements[..i + 1][..i] == elements[..i];
  }

  /** Element i occupies [Offset(i), Offset(i) + size) and that range lies
      before every later element and inside the whole record. */
  lemma {:induction false} OffsetsAreOrdered(elements: seq<VertexBufferElement>, i: nat, j: nat)
    requires WellTyped(elements) && i < j <= |elements|
    ensures Offset(elements, i) + ElementSize(elements[i]) <= Offset(elements, j)
    ensures Offset(elements, j) <= SumSizes(elements)
  {
    var pre, mid, post := elements[..i + 1], elements[i + 1..j], elements[j..];
    assert elements[..j] == pre + mid;
    assert elements == elements[..j] + post;
    SumSizesConcat(pre, mid);
    SumSizesConcat(elements[..j], post);
    OffsetStep(elements, i);
  }

  /** The record ends exactly where the last element ends. */
  lemma OffsetAtEnd(elements: seq<VertexBufferElement>)
    requires WellTyped(elements)
    ensures Offset(elements, |elements|) == SumSizes(elements)
  {
    assert elements[..|elements|] == elements;
  }

  /**
   * The layout object. The program keeps the element vector and the stride
   * as two private fields updated side by side by each Push.
   */
  class VertexBufferLayout {
    var elements: seq<VertexBufferElement>
    var stride: nat

    /** The stride is the sum of the element sizes, in insertion order. */
    ghost predicate Valid()
      reads this
    {
      WellTyped(elements) && stride == SumSizes(elements)
    }

    constructor ()
      ensures Valid()
      ensures elements == [] && stride == 0
    {
      elements := [];
      stride := 0;
    }

    /** Push<float>: a non-normalized float attribute of `count` components. */
    method PushFloat(count: nat)
      requires Valid()
      modifies this
      ensures Valid()
      ensures elements == old(elements) + [VertexBufferElement(GL_FLOAT, count, false)]
      ensures stride == old(stride) + 4 * count
    {
      var e := VertexBufferElement(GL_FLOAT, count, false);
      elements := elements + [e];
      stride := stride + count * GetSizeOfType(GL_FLOAT);
      assert elements[..|elements| - 1] == old(elements);
    }

    /** Push<unsigned int>: a non-normalized 32-bit unsigned integer attribute. */
    method PushUnsignedInt(count: nat)
      requires Valid()
      modifies this
      ensures Valid()
      ensures elements == old(elements) + [VertexBufferElement(GL_UNSIGNED_INT, count, false)]
      ensures stride == old(stride) + 4 * count
    {
      elements := elements + [VertexBufferElement(GL_UNSIGNED_INT, count, false)];
      stride := stride + count * GetSizeOfType(GL_UNSIGNED_INT);
      assert elements[..|elements| - 1] == old(elements);
    }

    /** Push<unsigned char>: a byte attribute, the only normalized kind. */
    method PushUnsignedByte(count: nat)
      requires Valid()
      modifies this
      ensures Valid()
      ensures elements == old(elements) + [VertexBufferElement(GL_UNSIGNED_BYTE, count, true)]
      ensures stride == old(stride) + count
    {
      elements := elements + [VertexBufferElement(GL_UNSIGNED_BYTE, count, true)];
      stride := stride + count * GetSizeOfType(GL_UNSIGNED_BYTE);
      assert elements[..|elements| - 1] == old(elements);
    }

    /** The elements in push order; every one has a known type. */
    function GetElements(): (r: seq<VertexBufferElement>)
      reads this
      requires Valid()
      ensures WellTyped(r) && SumSizes(r) == stride
      ensures r == elements
    {
      elements
    }

    /** The stride: the byte size of one vertex record. */
    function GetStride(): (r: nat)
      reads this
      requires Valid()
      ensures r == SumSizes(elements)
      ensures forall i :: 0 <= i < |elements| ==> ElementSize(elements[i]) <= r
    {
      forall i | 0 <= i < |elements| ensures ElementSize(elements[i]) <= stride {
        OffsetsAreOrdered(elements, i, |elements|);
        OffsetAtEnd(elements);
      }
      stride
    }
  }
}
