/** An output file opened for writing: opening truncates it, and every
    write appends to what is already there. */
module TextStream {

  class Stream {
    /** Everything written so far. */
    var text: string

    /** A freshly opened (and therefore empty) file. */
    constructor ()
      ensures text == ""
    {
      text := "";
    }

    method Write(s: string)
      modifies this
      ensures text == old(text) + s
    {
      text := text + s;
    }
  }
}
