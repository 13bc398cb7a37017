/** The receive buffer: storage that grows, and the part of it that has been committed. */
module Buffers {
  class Buffer {
    var data: seq<char>
    var size: nat

    ghost predicate Valid()
      reads this
    {
      size <= |data|
    }

    /** as_string_view. */
    function View(): string
      reads this
      requires Valid()
    {
      data[..size]
    }

    constructor ()
      ensures Valid() && View() == "" && |data| == 0
    {
      data := [];
      size := 0;
    }

    /** Free space of at least `minFree` bytes after the committed ones; what is committed stays. */
    method WriteSpan(minFree: nat) returns (length: nat)
      requires Valid()
      modifies this`data
      ensures Valid() && View() == old(View())
      ensures length == |data| - size >= minFree
      ensures |data| == if |old(data)| < size + minFree then size + minFree else |old(data)|
    {
      if |data| < size + minFree {
        data := data + seq(size + minFree - |data|, _ => '\0');
      }
      length := |data| - size;
    }

    /** A read into the span that `WriteSpan` returned. */
    method Fill(bytes: string)
      requires Valid() && size + |bytes| <= |data|
      modifies this`data
      ensures Valid() && View() == old(View()) && |data| == |old(data)|
      ensures data[size..size + |bytes|] == bytes
    {
      data := data[..size] + bytes + data[size + |bytes|..];
    }

    /** Commits n bytes of the span, or all of it if n is larger. */
    method Commit(n: nat)
      requires Valid()
      modifies this`size
      ensures Valid()
      ensures View() == old(View()) + data[old(size)..if old(size) + n <= |data| then old(size) + n else |data|]
    {
      size := size + n;
      if size > |data| {
        size := |data|;
      }
    }
  }
}
