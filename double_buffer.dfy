/**
 * `DoubleBuffer<T>`: two instances of a state, one labelled `read` (the
 * current generation) and one labelled `write` (the next), whose labels are
 * exchanged by `swap` without copying either.
 */
module DoubleBuffers {

  class DoubleBuffer<T> {
    var read: T
    var write: T

    /** `DoubleBuffer::new`. */
    constructor New(read: T, write: T)
      ensures Reader() == read && Writer() == write
    {
      this.read := read;
      this.write := write;
    }

    /**
     * `DoubleBuffer::from_value`: both slots start as `value`. Assignment of a
     * Dafny value copies it, which is what `clone` does for a value type.
     */
    constructor FromValue(value: T)
      ensures Reader() == value && Writer() == value
    {
      read := value;
      write := value;
    }

    /** `reader`: the current (read) slot. */
    function Reader(): T
      reads this
    {
      read
    }

    /**
     * `writer`: the write slot. When `T` holds objects, as in the simulation,
     * the caller mutates those objects in place.
     */
    function Writer(): T
      reads this
    {
      write
    }

    /**
     * `split`: both slots at once, the read one for reading and the write one
     * for mutation; the buffer itself is not changed.
     */
    method Split() returns (reader: T, writer: T)
      ensures reader == Reader() && writer == Writer()
    {
      reader, writer := read, write;
    }

    /** `swap`: the old write slot becomes the read slot and vice versa. */
    method Swap()
      modifies this
      ensures Reader() == old(Writer()) && Writer() == old(Reader())
    {
      read, write := write, read;
    }
  }

  /** Swapping twice restores both slots. */
  method SwapTwice<T>(buffer: DoubleBuffer<T>)
    modifies buffer
    ensures buffer.Reader() == old(buffer.Reader()) && buffer.Writer() == old(buffer.Writer())
  {
    buffer.Swap();
    buffer.Swap();
  }
}
