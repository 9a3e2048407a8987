/**
 * The vertex array: AddBuffer binds the array object, binds the vertex
 * buffer, and configures one attribute slot per layout element. Every GL
 * call it issues is recorded as a value, so the configuration it performs
 * can be stated and checked.
 */
module VertexArrays {
  import opened BufferLayout

  /** The GL calls AddBuffer issues, in the order it issues them. */
  datatype GLCall =
    | BindVertexArray(arrayId: nat)
    | BindArrayBuffer(bufferId: nat)
    | EnableVertexAttribArray(slot: nat)
    | VertexAttribPointer(slot: nat, size: nat, glType: nat, normalized: bool, stride: nat, offset: nat)

  /** The attribute configuration that slot `i` receives for a layout. */
  function AttribPointerFor(elements: seq<VertexBufferElement>, stride: nat, i: nat): GLCall
    requires WellTyped(elements) && i < |elements|
  {
    VertexAttribPointer(i, elements[i].count, elements[i].glType, elements[i].normalized, stride, Offset(elements, i))
  }

  class VertexArray {
    /** The vertex array object's name, issued by the driver. */
    const rendererId: nat

    constructor (rendererId: nat)
      ensures this.rendererId == rendererId
    {
      this.rendererId := rendererId;
    }

    /**
     * Attaches the vertex buffer named `bufferId` to this vertex array with
     * the given layout. The result is the sequence of GL calls issued: the
     * array bind, the buffer bind, then for each element in order the
     * enable of its slot followed by its attribute pointer.
     */
    method AddBuffer(bufferId: nat, layout: VertexBufferLayout) returns (calls: seq<GLCall>)
      requires layout.Valid()
      ensures |calls| == 2 + 2 * |layout.elements|
      ensures calls[0] == BindVertexArray(rendererId)
      ensures calls[1] == BindArrayBuffer(bufferId)
      ensures forall i :: 0 <= i < |layout.elements| ==>
                calls[2 + 2 * i] == EnableVertexAttribArray(i) &&
                calls[3 + 2 * i] == VertexAttribPointer(i, layout.elements[i].count, layout.elements[i].glType,
                                                        layout.elements[i].normalized, layout.stride,
                                                        Offset(layout.elements, i))
    {
      calls := [BindVertexArray(rendererId), BindArrayBuffer(bufferId)];
      var elements := layout.GetElements();
      var offset := 0;
      var i := 0;
      while i < |elements|
        invariant 0 <= i <= |elements|
        invariant |calls| == 2 + 2 * i
        invariant calls[0] == BindVertexArray(rendererId) && calls[1] == BindArrayBuffer(bufferId)
        invariant offset == Offset(elements, i)
        invariant forall k :: 0 <= k < i ==>
                    calls[2 + 2 * k] == EnableVertexAttribArray(k) &&
                    calls[3 + 2 * k] == AttribPointerFor(elements, layout.stride, k)
      {
        var element := elements[i];
        calls := calls + [EnableVertexAttribArray(i)];
        calls := calls + [VertexAttribPointer(i, element.count, element.glType, element.normalized,
                                              layout.GetStride(), offset)];
        OffsetStep(elements, i);
        offset := offset + element.count * GetSizeOfType(element.glType);
        i := i + 1;
      }
      OffsetAtEnd(elements);
      assert offset == layout.stride;
    }
  }

  /**
   * Every configured slot reads a range of the vertex record that lies
   * inside the stride, and the slots follow one another without overlap:
   * slot i ends where slot i + 1 begins, and the last slot ends at the stride.
   */
  lemma AttributesTileTheRecord(elements: seq<VertexBufferElement>, stride: nat, i: nat)
    requires WellTyped(elements) && stride == SumSizes(elements) && i < |elements|
    ensures AttribPointerFor(elements, stride, i).offset + ElementSize(elements[i]) <= stride
    ensures i + 1 < |elements| ==>
              AttribPointerFor(elements, stride, i + 1).offset ==
              AttribPointerFor(elements, stride, i).offset + ElementSize(elements[i])
    ensures i + 1 == |elements| ==>
              AttribPointerFor(elements, stride, i).offset + ElementSize(elements[i]) == stride
  {
    OffsetStep(elements, i);
    OffsetsAreOrdered(elements, i, |elements|);
    OffsetAtEnd(elements);
  }

  /** The demo's layout, three floats of position then two of texture
      coordinate, gives slots 0 and 1 at offsets 0 and 12 with stride 20. */
  method QuadLayoutExample(arrayId: nat, bufferId: nat) returns (calls: seq<GLCall>)
    ensures calls == [BindVertexArray(arrayId), BindArrayBuffer(bufferId),
                      EnableVertexAttribArray(0), VertexAttribPointer(0, 3, GL_FLOAT, false, 20, 0),
                      EnableVertexAttribArray(1), VertexAttribPointer(1, 2, GL_FLOAT, false, 20, 12)]
  {
    var va := new VertexArray(arrayId);
    var layout := new VertexBufferLayout();
    layout.PushFloat(3);
    layout.PushFloat(2);
    calls := va.AddBuffer(bufferId, layout);
    var es := layout.elements;
    assert es[..0] == [] && es[..1] == [es[0]] && [es[0]][..0] == [];
    assert Offset(es, 1) == 12;
  }
}
