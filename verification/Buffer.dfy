/** Go's bytes.Buffer, as far as the encoders use it: bytes are only ever appended. */
module Buffers {

  class Buffer {
    var data: string

    constructor ()
      ensures data == ""
    {
      data := "";
    }

    method WriteString(s: string)
      modifies this
      ensures data == old(data) + s
    {
      data := data + s;
    }

    method WriteByte(c: char)
      modifies this
      ensures data == old(data) + [c]
    {
      data := data + [c];
    }
  }
}
