/** The file-system calls the store makes, and the byte-by-byte line reader. */
module Disk {
  import opened Rows
  import opened Files

  class FileSystem {
    var files: FileMap
    /** The files as they stood after each call so far: what a stop there would leave. */
    ghost var states: seq<FileMap>

    constructor (files: FileMap)
      ensures this.files == files && states == []
    {
      this.files, states := files, [];
    }

    /** open(path, O_WRONLY | O_CREAT | O_TRUNC) */
    method Truncate(path: string)
      modifies this
      ensures files == old(files)[path := ""] && states == old(states) + [files]
    {
      files := files[path := ""];
      states := states + [files];
    }

    /** open(path, O_WRONLY | O_CREAT | O_APPEND) */
    method OpenAppend(path: string)
      modifies this
      ensures files == if path in old(files) then old(files) else old(files)[path := ""]
      ensures states == old(states) + [files]
    {
      if path !in files {
        files := files[path := ""];
      }
      states := states + [files];
    }

    /** write at the end of a file open for writing */
    method Write(path: string, data: string)
      requires path in files
      modifies this
      ensures files == old(files)[path := old(files)[path] + data] && states == old(states) + [files]
    {
      files := files[path := files[path] + data];
      states := states + [files];
    }

    method Unlink(path: string)
      modifies this
      ensures files == old(files) - {path} && states == old(states) + [files]
    {
      files := files - {path};
      states := states + [files];
    }

    method Rename(from: string, to: string)
      requires from in files && from != to
      modifies this
      ensures files == old(files)[to := old(files)[from]] - {from} && states == old(states) + [files]
    {
      files := files[to := files[from]] - {from};
      states := states + [files];
    }
  }

  /** A descriptor open for reading. */
  class Reader {
    const data: string
    var pos: nat

    constructor (data: string)
      ensures this.data == data && pos == 0
    {
      this.data := data;
      pos := 0;
    }

    /** read(fd, &c, 1) */
    method ReadByte() returns (n: nat, c: char)
      requires pos <= |data|
      modifies this
      ensures pos == old(pos) + n <= |data|
      ensures n == if old(pos) < |data| then 1 else 0
      ensures n == 1 ==> c == data[old(pos)]
    {
      n, c := 0, '\0';
      if pos < |data| {
        n, c := 1, data[pos];
        pos := pos + 1;
      }
    }

    /** read_line_sys */
    method ReadLine(buffer: array<char>) returns (i: nat)
      requires buffer.Length > 0 && pos <= |data|
      modifies this, buffer
      ensures i == LineLength(data[old(pos)..], buffer.Length - 1)
      ensures pos == old(pos) + i <= |data|
      ensures buffer[..i] == data[old(pos)..pos] && buffer[i] == '\0'
    {
      i := 0;
      ghost var start := pos;
      while i < buffer.Length - 1
        invariant 0 <= i <= buffer.Length - 1
        invariant pos == start + i <= |data|
        invariant buffer[..i] == data[start..pos]
        invariant LineLength(data[start..], buffer.Length - 1) == i + LineLength(data[pos..], buffer.Length - 1 - i)
      {
        var n, c := ReadByte();
        if n > 0 {
          buffer[i] := c;
          i := i + 1;
          assert buffer[..i] == data[start..pos];
          assert data[pos - 1..][1..] == data[pos..];
          if c == '\n' { break; }
        } else {
          break;
        }
      }
      buffer[i] := '\0';
    }
  }

  lemma LineStep(data: string, pos: nat, n: nat)
    requires pos + n <= |data| && n == LineLength(data[pos..], LINE_BUFFER - 1)
    ensures RowsOf(data[pos..]) == ParseLine(data[pos..pos + n]) + RowsOf(data[pos + n..])
  {
    var s := data[pos..];
    assert s[..n] == data[pos..pos + n] && s[n..] == data[pos + n..];
    if s == "" {
      assert ParseLine("") == [];
    }
  }
}
