/**
 Reading and writing in chunks.  The server is a file and a script of answers: an error, or how
 many bytes of the next call it takes.  It takes at least one byte when there is one to take,
 as section 3.3.7 of RFC 1813 leaves it to the client to send the rest.
 */
module Transfer {
  import opened Bytes

  type Content = seq<Byte>

  function Min(a: nat, b: nat): nat {
    if a < b then a else b
  }

  /** A file up to an offset; a gap behind its end reads as zeros. */
  function Front(f: Content, off: nat): (r: Content)
    ensures |r| == off
  {
    if off <= |f| then f[..off] else f + Zeros(off - |f|)
  }

  function Back(f: Content, off: nat): Content {
    if off <= |f| then f[off..] else []
  }

  /** Bytes put at an offset; writing nothing does not even make the file longer. */
  function WriteAt(f: Content, off: nat, data: Content): Content {
    if data == [] then f else Front(f, off) + data + Back(f, off + |data|)
  }

  function ReadAt(f: Content, off: nat, size: nat): Content {
    if off >= |f| then [] else f[off..off + Min(size, |f| - off)]
  }

  /** Two adjoining writes are one. */
  lemma {:induction false} WriteTwice(f: Content, off: nat, a: Content, b: Content)
    ensures WriteAt(WriteAt(f, off, a), off + |a|, b) == WriteAt(f, off, a + b)
  {
    if b == [] {
      assert a + b == a;
    } else if a == [] {
      assert a + b == b;
    } else {
      WriteBoth(f, off, a, b, off + |a|);
    }
  }

  lemma {:induction false} WriteBoth(f: Content, off: nat, a: Content, b: Content, n: nat)
    requires a != [] && b != [] && n == off + |a|
    ensures WriteAt(WriteAt(f, off, a), n, b) == WriteAt(f, off, a + b)
  {
    var x, y, z := Front(f, off), Back(f, n), Back(f, n + |b|);
    calc {
      WriteAt(WriteAt(f, off, a), n, b);
      { Parts(f, off, a, n); }
      WriteAt(x + a + y, n, b);
      { WriteBetween(x + a, y, b); }
      x + a + b + Back(y, |b|);
      { BackAgain(f, n, |b|); }
      x + a + b + z;
      { Regroup(x, a, b); }
      x + (a + b) + z;
      { Parts(f, off, a + b, n + |b|); }
      WriteAt(f, off, a + b);
    }
  }

  lemma {:induction false} Parts(f: Content, off: nat, data: Content, n: nat)
    requires |data| > 0 && n == off + |data|
    ensures WriteAt(f, off, data) == Front(f, off) + data + Back(f, n)
  {
  }

  lemma {:induction false} Regroup(x: Content, y: Content, z: Content)
    ensures x + y + z == x + (y + z)
  {
  }

  lemma {:induction false} WriteBetween(x: Content, y: Content, b: Content)
    requires b != []
    ensures WriteAt(x + y, |x|, b) == x + b + Back(y, |b|)
  {
    FrontOf(x, y);
    BackAfter(x, y, |b|);
  }

  lemma {:induction false} FrontOf(x: Content, y: Content)
    ensures Front(x + y, |x|) == x
  {
  }

  lemma {:induction false} BackAfter(x: Content, y: Content, k: nat)
    ensures Back(x + y, |x| + k) == Back(y, k)
  {
  }

  lemma {:induction false} BackAgain(f: Content, n: nat, k: nat)
    ensures Back(Back(f, n), k) == Back(f, n + k)
  {
  }

  /** Two adjoining reads are one, when the first is not cut short by the end. */
  lemma {:induction false} ReadTwice(f: Content, off: nat, n: nat, size: nat)
    requires n <= size && (n == 0 || off + n <= |f|)
    ensures ReadAt(f, off, n) + ReadAt(f, off + n, size - n) == ReadAt(f, off, size)
  {
  }

  lemma {:induction false} ReadToEnd(f: Content, off: nat, n: nat, size: nat)
    requires n <= size && off + n >= |f|
    ensures ReadAt(f, off, n) == ReadAt(f, off, size)
  {
  }

  /** What was written is read back. */
  lemma {:induction false} ReadBack(f: Content, off: nat, data: Content)
    ensures ReadAt(WriteAt(f, off, data), off, |data|) == data
  {
    var g := WriteAt(f, off, data);
    if data != [] {
      var r := ReadAt(g, off, |data|);
      assert |r| == |data|;
      forall i | 0 <= i < |r|
        ensures r[i] == data[i]
      {
        assert r[i] == g[off + i];
      }
    }
  }

  /** A write changes nothing outside its range, and bytes in a gap are zero. */
  lemma {:induction false} WriteElsewhere(f: Content, off: nat, data: Content, i: nat)
    requires data != [] && !(off <= i < off + |data|)
    ensures var g := WriteAt(f, off, data);
            && (i < |f| ==> i < |g| && g[i] == f[i])
            && (|f| <= i < off ==> i < |g| && g[i] == 0)
            && (i >= |f| && i >= off ==> i >= |g|)
  {
  }

  lemma {:induction false} ReadAgain(f: Content, off: nat, n: nat)
    ensures ReadAt(f, off, |ReadAt(f, off, n)|) == ReadAt(f, off, n)
  {
  }

  /** memcpy */
  method Fill(data: array<Byte>, at: nat, s: Content)
    requires at + |s| <= data.Length
    modifies data
    ensures data[..at] == old(data[..at]) && data[at..at + |s|] == s
  {
    forall i | 0 <= i < |s| {
      data[at + i] := s[i];
    }
  }

  datatype Answer = Refuse(errno: nat) | Take(count: nat)

  /** How many of `count` bytes an answer takes: at least one, if there is one. */
  function Taken(a: Answer, count: nat): (n: nat)
    requires a.Take?
    ensures n <= count && (count > 0 ==> n > 0)
  {
    if count == 0 then 0 else if a.count == 0 then 1 else Min(a.count, count)
  }

  class Server {
    var file: Content
    var script: seq<Answer>

    constructor (file: Content, script: seq<Answer>)
      ensures this.file == file && this.script == script
    {
      this.file, this.script := file, script;
    }

    method Next(count: nat) returns (a: Answer)
      modifies this`script
      ensures a.Refuse? ==> a.errno != 0
    {
      if script == [] {
        return Take(count);
      }
      a, script := script[0], script[1..];
      if a.Refuse? && a.errno == 0 {
        a := Take(count);
      }
    }

    /** hsi_nfs3_write */
    method Write(off: nat, data: Content) returns (err: nat, count: nat)
      modifies this
      ensures count <= |data| && (err == 0 && data != [] ==> count > 0)
      ensures file == if err == 0 then WriteAt(old(file), off, data[..count]) else old(file)
    {
      var a := Next(|data|);
      if a.Refuse? {
        return a.errno, 0;
      }
      count := Taken(a, |data|);
      file := WriteAt(file, off, data[..count]);
      err := 0;
    }

    /** hsi_nfs3_read: the answer goes to data[at..]; eof says that it reaches the end of the file. */
    method Read(off: nat, data: array<Byte>, at: nat, size: nat) returns (err: nat, count: nat, eof: bool)
      requires at + size <= data.Length
      modifies this`script, data
      ensures count <= size && data[..at] == old(data[..at])
      ensures err == 0 ==> data[at..at + count] == ReadAt(file, off, count) && (eof <==> off + count >= |file|)
      ensures err == 0 && !eof ==> (size > 0 ==> count > 0) && off + count <= |file|
      ensures err == 0 && eof ==> ReadAt(file, off, count) == ReadAt(file, off, size)
    {
      var a := Next(size);
      if a.Refuse? {
        return a.errno, 0, false;
      }
      var got := ReadAt(file, off, Taken(a, size));
      count := |got|;
      ReadAgain(file, off, Taken(a, size));
      Fill(data, at, got);
      eof := off + count >= |file|;
      if eof {
        ReadToEnd(file, off, count, size);
      }
      err := 0;
    }
  }

  lemma {:induction false} WriteMore(f: Content, off: nat, content: Content, cnt: nat, n: nat)
    requires cnt + n <= |content|
    ensures WriteAt(WriteAt(f, off, content[..cnt]), off + cnt, content[cnt..cnt + n]) ==
            WriteAt(f, off, content[..cnt + n])
  {
    var a, b := content[..cnt], content[cnt..cnt + n];
    WriteTwice(f, off, a, b);
    assert a + b == content[..cnt + n];
  }

  /** The next chunk is copied to the buffer. */
  method FillBuffer(content: Content, cnt: nat, buffer: array<Byte>) returns (data: Content)
    requires cnt < |content| && buffer.Length >= 1
    modifies buffer
    ensures data != [] && cnt + |data| <= |content| && data == content[cnt..cnt + |data|]
  {
    var chunk := Min(|content| - cnt, buffer.Length);
    forall i | 0 <= i < chunk {
      buffer[i] := content[cnt + i];
    }
    data := buffer[..chunk];
  }

  /** hsx_fuse_write: all is written, or what was written before the error is a prefix. */
  method FuseWrite(server: Server, content: Content, off: nat, wsize: nat) returns (err: nat, cnt: nat)
    requires wsize >= 1
    modifies server
    ensures err == 0 ==> cnt == |content| && server.file == WriteAt(old(server.file), off, content)
    ensures err != 0 ==> cnt < |content| && server.file == WriteAt(old(server.file), off, content[..cnt])
  {
    var buffer := new Byte[wsize](_ => 0);
    cnt, err := 0, 0;
    while cnt < |content|
      invariant cnt <= |content| && err == 0
      invariant server.file == WriteAt(old(server.file), off, content[..cnt])
      decreases |content| - cnt
    {
      var data := FillBuffer(content, cnt, buffer);
      var e, n := server.Write(off + cnt, data);
      if e != 0 {
        return e, cnt;
      }
      assert data[..n] == content[cnt..cnt + n];
      WriteMore(old(server.file), off, content, cnt, n);
      cnt := cnt + n;
    }
    assert content[..cnt] == content;
  }

  /** One chunk of the file goes to the buffer behind what is there. */
  method ReadChunk(server: Server, buf: array<Byte>, cnt: nat, off: nat, rsize: nat)
    returns (err: nat, n: nat, eof: bool)
    requires cnt < buf.Length && rsize >= 1 && (cnt == 0 || off + cnt <= |server.file|)
    requires buf[..cnt] == ReadAt(server.file, off, cnt)
    modifies server`script, buf
    ensures cnt + n <= buf.Length
    ensures err == 0 ==> buf[..cnt + n] == ReadAt(server.file, off, cnt + n)
    ensures err == 0 ==> if eof then off + cnt + n >= |server.file| else n > 0 && off + cnt + n <= |server.file|
  {
    var chunk := Min(buf.Length - cnt, rsize);
    err, n, eof := server.Read(off + cnt, buf, cnt, chunk);
    ReadTwice(server.file, off, cnt, cnt + n);
    assert buf[..cnt + n] == buf[..cnt] + buf[cnt..cnt + n];
  }

  /** hsx_fuse_read: the reply is what the file holds at the offset, up to the size asked for or the end. */
  method FuseRead(server: Server, size: nat, off: nat, rsize: nat) returns (err: nat, buf: array<Byte>, cnt: nat)
    requires rsize >= 1
    modifies server`script
    ensures cnt <= buf.Length && fresh(buf)
    ensures err == 0 ==> buf[..cnt] == ReadAt(server.file, off, size)
  {
    buf := new Byte[size](_ => 0);
    cnt, err := 0, 0;
    while cnt < size
      invariant cnt <= size && err == 0 && buf.Length == size && fresh(buf)
      invariant cnt == 0 || off + cnt <= |server.file|
      invariant buf[..cnt] == ReadAt(server.file, off, cnt)
      decreases size - cnt
    {
      var e, n, eof := ReadChunk(server, buf, cnt, off, rsize);
      if e != 0 {
        return e, buf, cnt;
      }
      cnt := cnt + n;
      if eof {
        ReadToEnd(server.file, off, cnt, size);
        break;
      }
    }
  }
}
