/** The chunk buffer of the sparrowlet snapshot: a list of strings appended
    piece by piece and joined only when the whole text is wanted. */
module Buff {
  import opened PyText

  class Buff {
    /** The chunks, in append order; `len(buff)` counts these, not characters. */
    var chunks: seq<string>

    /** `Buff(init_str)`: empty, or holding the one initial chunk. */
    constructor(init: Option<string>)
      ensures init.None? ==> chunks == []
      ensures init.Some? ==> chunks == [init.value]
    {
      if init.Some? {
        chunks := [init.value];
      } else {
        chunks := [];
      }
    }

    method Append(s: string)
      modifies this
      ensures chunks == old(chunks) + [s]
    {
      chunks := chunks + [s];
    }

    /** `pop_str`: the concatenation of every chunk in append order; the
        buffer is left empty, so a second call yields "". */
    method PopStr() returns (data: string)
      modifies this
      ensures data == Concat(old(chunks))
      ensures chunks == []
    {
      data := Concat(chunks);
      Clean();
    }

    /** `clean` (`del self[:]`): no chunk is left; calling it again changes nothing. */
    method Clean()
      modifies this
      ensures chunks == []
    {
      chunks := [];
    }
  }
}
