/** The read-only content of a service-binding entry: either a file, opened lazily by the
    streaming Read, or a predefined in-memory value read through a cursor. Close resets the
    entry so that the next streaming Read starts again from the first byte. */
module ServiceBindings {
  import opened Wrappers

  type Byte = bv8

  /** The file system as the entry sees it: a path either names a file holding these bytes
      or cannot be opened. */
  type FileSystem = map<string, seq<Byte>>

  /** The errors an entry reports: io.EOF at the end of the data, and the failure to open
      (or read whole) the entry's file. */
  datatype Error = EOF | OpenFailed(path: string)

  /** A read position over immutable bytes: the state of a bytes.Reader, and of an open file. */
  datatype Cursor = Cursor(data: seq<Byte>, pos: nat) {
    predicate Valid() { pos <= |data| }

    predicate AtEnd() { pos >= |data| }

    /** The bytes not read yet. */
    function Rest(): seq<Byte>
      requires Valid()
    {
      data[pos..]
    }
  }

  /** What one streaming read reports (a count and an error) and the cursor after it. */
  datatype Step = Step(n: nat, err: Option<Error>, after: Cursor)

  function Min(a: nat, b: nat): nat { if a < b then a else b }

  /** bytes.Reader.Read with a buffer of `want` bytes: at the end it reports 0 bytes and
      EOF; otherwise it hands over as many of the next bytes as fit and moves past them. */
  function ReaderRead(c: Cursor, want: nat): (s: Step)
    requires c.Valid()
    ensures s.after.Valid() && s.after.data == c.data
    ensures s.n <= want && s.after.pos == c.pos + s.n
    ensures s.err.Some? <==> c.AtEnd()
    ensures s.err.Some? ==> s.err == Some(EOF) && s.n == 0
    ensures s.err.None? ==> s.n == want || s.after.AtEnd()
  {
    if c.AtEnd() then Step(0, Some(EOF), c)
    else
      var n := Min(want, |c.data| - c.pos);
      Step(n, None, c.(pos := c.pos + n))
  }

  /** The outcomes os.File.Read may have on a file open at cursor `c`, with a buffer of
      `want` bytes: an empty buffer reads nothing and reports no error; at the end of the
      file it reports 0 bytes and EOF; otherwise it hands over at least one and at most
      `want` of the next bytes, a number the operating system chooses. */
  ghost predicate FileReadStep(c: Cursor, want: nat, s: Step)
    requires c.Valid()
    ensures FileReadStep(c, want, s) ==>
      && s.n <= want && s.after.Valid()
      && (s.err.Some? <==> want > 0 && c.AtEnd())
      && (s.err.Some? ==> s.err == Some(EOF))
  {
    && s.after.data == c.data
    && s.after.pos == c.pos + s.n
    && if want == 0 then s.n == 0 && s.err == None
       else if c.AtEnd() then s.n == 0 && s.err == Some(EOF)
       else 0 < s.n <= Min(want, |c.data| - c.pos) && s.err == None
  }

  /** io.ReadAll over a cursor: reads chunk after chunk, each of at most `chunk` bytes, until
      EOF, which is not an error for it. The result is every byte from the cursor on,
      whatever the chunk size. */
  method ReadAll(c: Cursor, chunk: nat) returns (bytes: seq<Byte>, after: Cursor)
    requires c.Valid() && chunk > 0
    ensures bytes == c.Rest()
    ensures after.data == c.data && after.AtEnd() && after.Valid()
  {
    bytes, after := [], c;
    while true
      invariant after.Valid() && after.data == c.data && c.pos <= after.pos
      invariant bytes == c.data[c.pos..after.pos]
      decreases |after.data| - after.pos
    {
      var s := ReaderRead(after, chunk);
      if s.err.Some? {
        break;
      }
      bytes := bytes + after.data[after.pos..s.after.pos];
      after := s.after;
    }
  }

  /** os.ReadFile: the whole content of the file at `path`, or the failure to open it. */
  function ReadFile(fs: FileSystem, path: string): (r: (seq<Byte>, Option<Error>))
    ensures r.1.None? <==> path in fs
    ensures path in fs ==> r.0 == fs[path]
    ensures path !in fs ==> r.0 == [] && r.1 == Some(OpenFailed(path))
  {
    if path in fs then (fs[path], None) else ([], Some(OpenFailed(path)))
  }

  /** The bytes of a Go string, one per character. */
  function StringToBytes(s: string): seq<Byte>
    requires forall i :: 0 <= i < |s| ==> s[i] as int < 256
  {
    seq(|s|, i requires 0 <= i < |s| => (s[i] as int) as Byte)
  }

  /** Go's string(b): a string holding exactly the given bytes, one character per byte,
      with no validation of any character encoding. */
  function BytesToString(bs: seq<Byte>): (s: string)
    ensures |s| == |bs|
    ensures forall i :: 0 <= i < |s| ==> s[i] as int < 256
    ensures StringToBytes(s) == bs
  {
    seq(|bs|, i requires 0 <= i < |bs| => (bs[i] as int) as char)
  }

  /** Go's copy(b, src) for a source that fits: the first |src| bytes of b are replaced. */
  method CopyInto(b: array<Byte>, src: seq<Byte>)
    requires |src| <= b.Length
    modifies b
    ensures b[..|src|] == src && b[|src|..] == old(b[|src|..])
  {
    forall i | 0 <= i < |src| {
      b[i] := src[i];
    }
  }

  class Entry {
    /** The file holding the content; the empty string for a value-backed entry. */
    const path: string
    /** The reader over the predefined value; None for a file-backed entry. */
    var value: Option<Cursor>
    /** The file opened by the streaming Read, with its read position; None while closed. */
    var file: Option<Cursor>

    ghost predicate Valid()
      reads this
    {
      && (value.Some? ==> value.value.Valid() && file.None?)
      && (file.Some? ==> file.value.Valid())
    }

    /** The next streaming Read starts from the first byte of the content. */
    ghost predicate Rewound()
      reads this
    {
      file.None? && (value.Some? ==> value.value.pos == 0)
    }

    /** The whole content a streaming read from the first byte yields, or None when the
        entry's file cannot be opened. */
    ghost function Content(fs: FileSystem): Option<seq<Byte>>
      reads this
    {
      if value.Some? then Some(value.value.data)
      else if path in fs then Some(fs[path])
      else None
    }

    /** What ReadBytes returns in the current state: the rest of the value from the cursor
        on, or the whole file. */
    ghost function WholeRead(fs: FileSystem): (seq<Byte>, Option<Error>)
      reads this
      requires Valid()
    {
      if value.Some? then (value.value.Rest(), None) else ReadFile(fs, path)
    }

    /** The value reader once everything has been read from it. */
    ghost function ValueExhausted(): Option<Cursor>
      reads this
    {
      match value
      case Some(c) => Some(c.(pos := |c.data|))
      case None => None
    }

    /** NewEntry: a file-backed entry; nothing is opened yet. */
    constructor NewEntry(path: string)
      ensures this.path == path && value == None && file == None
      ensures Valid() && Rewound()
    {
      this.path := path;
      value := None;
      file := None;
    }

    /** NewWithValue: a value-backed entry whose cursor is at the first of exactly these bytes. */
    constructor NewWithValue(value: seq<Byte>)
      ensures path == "" && this.value == Some(Cursor(value, 0)) && file == None
      ensures Valid() && Rewound()
    {
      path := "";
      this.value := Some(Cursor(value, 0));
      file := None;
    }

    /** Reads the entire remaining content. A value-backed entry hands over the bytes from its
        cursor on and leaves the cursor at the end; a file-backed entry reads the whole file
        on its own, without touching the handle of the streaming Read. */
    method ReadBytes(fs: FileSystem) returns (bytes: seq<Byte>, err: Option<Error>)
      requires Valid()
      modifies this
      ensures Valid() && file == old(file)
      ensures (bytes, err) == old(WholeRead(fs))
      ensures value == old(ValueExhausted())
    {
      if value.Some? {
        var after;
        bytes, after := ReadAll(value.value, 512);
        value := Some(after);
        err := None;
        return;
      }
      var whole := ReadFile(fs, path);
      bytes, err := whole.0, whole.1;
    }

    /** ReadBytes, with the bytes handed over as a string; on error the string is empty. */
    method ReadString(fs: FileSystem) returns (s: string, err: Option<Error>)
      requires Valid()
      modifies this
      ensures Valid() && file == old(file)
      ensures err == old(WholeRead(fs)).1
      ensures s == if err.Some? then "" else BytesToString(old(WholeRead(fs)).0)
      ensures value == old(ValueExhausted())
    {
      var bytes: seq<Byte>;
      if value.Some? {
        var after;
        bytes, after := ReadAll(value.value, 512);
        value := Some(after);
        err := None;
      } else {
        bytes, err := ReadBytes(fs);
        if err.Some? {
          return "", err;
        }
      }
      s := BytesToString(bytes);
    }

    /** Reads up to b.Length bytes into b and reports how many. A value-backed entry reads
        from its cursor; a file-backed entry opens its file first when no handle is open
        (an open that fails is reported with no handle kept) and then reads from the handle. */
    method Read(b: array<Byte>, fs: FileSystem) returns (n: nat, err: Option<Error>)
      requires Valid()
      modifies this, b
      ensures Valid() && n <= b.Length
      ensures b[n..] == old(b[n..])
      ensures old(value).Some? ==>
        var s := ReaderRead(old(value).value, b.Length);
        && n == s.n && err == s.err && value == Some(s.after) && file == None
        && b[..n] == old(value).value.data[old(value).value.pos..s.after.pos]
      ensures old(value).None? && old(file).None? && path !in fs ==>
        n == 0 && err == Some(OpenFailed(path)) && value == None && file == None
      ensures old(value).None? && (old(file).Some? || path in fs) ==>
        var h := if old(file).Some? then old(file).value else Cursor(fs[path], 0);
        && value == None && file.Some?
        && FileReadStep(h, b.Length, Step(n, err, file.value))
        && b[..n] == h.data[h.pos..file.value.pos]
    {
      if value.Some? {
        var s := ReaderRead(value.value, b.Length);
        CopyInto(b, value.value.data[value.value.pos..s.after.pos]);
        value := Some(s.after);
        return s.n, s.err;
      }
      if file.None? {
        if path !in fs {
          return 0, Some(OpenFailed(path));
        }
        file := Some(Cursor(fs[path], 0));
      }
      var h := file.value;
      if b.Length == 0 {
        return 0, None;
      }
      if h.AtEnd() {
        return 0, Some(EOF);
      }
      n := Min(b.Length, |h.data| - h.pos);
      CopyInto(b, h.data[h.pos..h.pos + n]);
      file := Some(h.(pos := h.pos + n));
      err := None;
    }

    /** Closes the entry and resets it for reading: the value cursor goes back to the first
        byte, an open handle is closed, and the handle is always cleared. Closing an entry
        with no open handle succeeds, so Close may be called any number of times. */
    method Close() returns (err: Option<Error>)
      requires Valid()
      modifies this
      ensures Valid() && Rewound() && err == None
      ensures file == None
      ensures value == if old(value).Some? then Some(old(value).value.(pos := 0)) else None
    {
      if value.Some? {
        value := Some(value.value.(pos := 0));
        err := None;
      } else if file.None? {
        err := None;
      } else {
        // closing the open handle, which cannot fail here
        err := None;
      }
      // the deferred clearing of the handle, on every path
      file := None;
    }
  }

  /** A caller's streaming loop: Read with a buffer of bufLen bytes until an error is
      reported, collecting the bytes. From a rewound entry it yields the whole content and
      ends with EOF, or ends at once with the open failure. */
  method ReadToEnd(e: Entry, fs: FileSystem, bufLen: nat) returns (got: seq<Byte>, err: Option<Error>)
    requires e.Valid() && e.Rewound() && bufLen > 0
    modifies e
    ensures e.Valid() && e.Content(fs) == old(e.Content(fs))
    ensures old(e.Content(fs)).Some? ==> err == Some(EOF) && got == old(e.Content(fs)).value
    ensures old(e.Content(fs)).None? ==> err == Some(OpenFailed(e.path)) && got == []
  {
    var b := new Byte[bufLen];
    got := [];
    while true
      invariant e.Valid() && e.Content(fs) == old(e.Content(fs))
      invariant e.value.Some? ==> got == e.value.value.data[..e.value.value.pos]
      invariant e.value.None? && e.file.Some? ==>
        e.path in fs && e.file.value.data == fs[e.path] && got == e.file.value.data[..e.file.value.pos]
      invariant e.value.None? && e.file.None? ==> got == []
      decreases if e.value.Some? then |e.value.value.data| - e.value.value.pos
                else if e.file.Some? then |e.file.value.data| - e.file.value.pos
                else if e.path in fs then |fs[e.path]| + 1
                else 0
    {
      var n;
      n, err := e.Read(b, fs);
      got := got + b[..n];
      if err.Some? {
        break;
      }
    }
  }

  /** Reads an entry to the end, closes it, and reads it to the end again: both passes
      yield the whole content. */
  method ReadCloseRead(e: Entry, fs: FileSystem, bufLen: nat) returns (first: seq<Byte>, second: seq<Byte>)
    requires e.Valid() && e.Rewound() && bufLen > 0 && e.Content(fs).Some?
    modifies e
    ensures first == old(e.Content(fs)).value && second == first
  {
    var err;
    first, err := ReadToEnd(e, fs, bufLen);
    err := e.Close();
    second, err := ReadToEnd(e, fs, bufLen);
  }

  /** ReadBytes twice on a value-backed entry, with no Close between: the first call hands
      over the rest of the value, the second nothing. */
  method ReadBytesTwice(e: Entry, fs: FileSystem) returns (first: seq<Byte>, second: seq<Byte>)
    requires e.Valid() && e.value.Some?
    modifies e
    ensures first == old(e.value).value.Rest() && second == []
  {
    var err;
    first, err := e.ReadBytes(fs);
    second, err := e.ReadBytes(fs);
  }
}
