/** The HTTP writer: a buffer of fixed size that is sent whenever it is full. */
module HttpWriting {
  import opened SourceText
  import opened RequestLines

  const BufferSize: nat := 4096

  // What the receiver gets.
  function Joined(chunks: seq<string>): string {
    if chunks == [] then "" else Joined(chunks[..|chunks| - 1]) + chunks[|chunks| - 1]
  }

  class HttpWriter {
    const writeBuffer: array<char>
    var position: nat
    var isEnd: bool
    // What has been handed to the socket, one copy of the buffer a write.
    var sent: seq<string>

    ghost predicate Valid()
      reads this
    {
      writeBuffer.Length == BufferSize && position <= BufferSize
    }

    /** All that has been written: what is sent and what waits in the buffer. */
    ghost function Written(): string
      requires Valid()
      reads this, writeBuffer
    {
      Joined(sent) + writeBuffer[..position]
    }

    constructor ()
      ensures Valid() && fresh(writeBuffer) && Written() == "" && sent == [] && !isEnd
    {
      writeBuffer := new char[BufferSize];
      position, isEnd, sent := 0, false, [];
    }

    method WriteToSocket()
      requires Valid()
      modifies `sent
      ensures sent == old(sent) + [writeBuffer[..position]]
    {
      sent := sent + [writeBuffer[..position]];
    }

    method FlushBuffer()
      requires Valid()
      modifies `sent, `position
      ensures Valid() && position == 0 && Written() == old(Written())
      ensures sent == old(sent) + if old(position) == 0 then [] else [writeBuffer[..old(position)]]
    {
      if position == 0 {
        return;
      }
      WriteToSocket();
      assert sent[..|sent| - 1] == old(sent);
      position := 0;
    }

    /** Appends the text; only full buffers are sent. */
    method Write(text: string)
      requires Valid()
      modifies this, writeBuffer
      ensures Valid() && Written() == old(Written()) + text && isEnd == old(isEnd)
      ensures old(sent) <= sent && forall k | |old(sent)| <= k < |sent| :: |sent[k]| == BufferSize
    {
      assert text[..0] == [];
      for i := 0 to |text|
        invariant Valid() && Written() == old(Written()) + text[..i] && isEnd == old(isEnd)
        invariant old(sent) <= sent && forall k | |old(sent)| <= k < |sent| :: |sent[k]| == BufferSize
      {
        if position == BufferSize {
          FlushBuffer();
        }
        WriteChar(text[i]);
        assert text[..i + 1] == text[..i] + [text[i]];
      }
      assert text[..|text|] == text;
    }

    method WriteChar(c: char)
      requires Valid() && position < BufferSize
      modifies `position, writeBuffer
      ensures Valid() && Written() == old(Written()) + [c]
    {
      writeBuffer[position] := c;
      position := position + 1;
      assert writeBuffer[..position] == old(writeBuffer[..position]) + [c];
    }

    /** Writes a request line; of a method the writer does not know, nothing is written. */
    method WriteRequest(verb: HttpMethod, path: string)
      requires Valid()
      modifies this, writeBuffer
      ensures Valid() && Written() == old(Written()) + RequestText(verb, path)
      ensures old(sent) <= sent && forall k | |old(sent)| <= k < |sent| :: |sent[k]| == BufferSize
    {
      hide Joined, HttpWriter.Valid, HttpWriter.Written;
      ghost var before := Written();
      WriteMethod(verb);
      Write(path);
      Write(Version);
      assert before + MethodText(verb) + path + Version == before + RequestText(verb, path);
    }

    method WriteMethod(verb: HttpMethod)
      requires Valid()
      modifies this, writeBuffer
      ensures Valid() && Written() == old(Written()) + MethodText(verb)
      ensures old(sent) <= sent && forall k | |old(sent)| <= k < |sent| :: |sent[k]| == BufferSize
    {
      hide Joined, HttpWriter.Valid, HttpWriter.Written;
      if verb == Get {
        Write("GET ");
      } else if verb == Post {
        Write("POST ");
      } else if verb == Patch {
        Write("PATCH ");
      } else if verb == Head {
        Write("HEAD ");
      }
    }

    /** The rest of the buffer is sent; the chunks make up all that was written. */
    method End()
      requires Valid()
      modifies this
      ensures Valid() && isEnd && position == 0
      ensures Joined(sent) == Written() == old(Written())
      ensures sent == old(sent) + if old(position) == 0 then [] else [writeBuffer[..old(position)]]
    {
      FlushBuffer();
      isEnd := true;
    }
  }
}
