/** A `FILE*` opened for binary reading: the file's bytes and a cursor.
    `fread` at the end returns fewer bytes than asked for; `fseek` may move the cursor past the end. */
module Stream {
  import opened Bytes
  import opened Results

  const NEWLINE: byte := 10

  /** What a stream at `pos` has left to read (nothing once `pos` is past the end). */
  function Rest(data: seq<byte>, pos: nat): (r: seq<byte>)
    ensures |r| == if pos <= |data| then |data| - pos else 0
    ensures forall k :: 0 <= k < |r| ==> r[k] == data[pos + k]
  {
    if pos <= |data| then data[pos..] else []
  }

  /** What `fread` of `n` bytes returns from the bytes `s` that are left: all `n`, or fewer at the end. */
  function Take(s: seq<byte>, n: nat): (r: seq<byte>)
    ensures |r| == Min(n, |s|) && r == s[..|r|]
  {
    s[..Min(n, |s|)]
  }

  /** How many bytes `fgets` with room for `max` characters takes from `s`:
      it stops after the first newline, after `max` bytes, or at the end. */
  function LineLength(s: seq<byte>, max: nat): (n: nat)
    ensures n <= |s| && n <= max
    ensures forall k :: 0 <= k < n - 1 ==> s[k] != NEWLINE
    ensures n < |s| && n < max ==> n > 0 && s[n - 1] == NEWLINE
    ensures n == 0 <==> s == [] || max == 0
  {
    if s == [] || max == 0 then 0
    else if s[0] == NEWLINE then 1
    else 1 + LineLength(s[1..], max - 1)
  }

  class File {
    const data: seq<byte>
    var pos: nat

    /** `fopen(name, "rb")` that succeeded on a file holding `contents`. */
    constructor Open(contents: seq<byte>)
      ensures data == contents && pos == 0
    {
      data := contents;
      pos := 0;
    }

    /** `ftell` */
    function Tell(): nat
      reads this
    {
      pos
    }

    /** `fseek(fp, p, SEEK_SET)` */
    method Seek(p: nat)
      modifies this
      ensures pos == p
    {
      pos := p;
    }

    /** `fseek(fp, -back, SEEK_END)`: fails, leaving the cursor where it was, when the file
        holds fewer than `back` bytes. */
    method SeekFromEnd(back: nat) returns (ok: bool)
      modifies this
      ensures ok <==> back <= |data|
      ensures pos == if ok then |data| - back else old(pos)
    {
      ok := back <= |data|;
      if ok {
        pos := |data| - back;
      }
    }

    /** `fread(buf, 1, n, fp)`: the bytes read; the cursor moves past them. */
    method Read(n: nat) returns (bytes: seq<byte>)
      modifies this
      ensures bytes == Take(Rest(data, old(pos)), n)
      ensures pos == old(pos) + |bytes|
    {
      bytes := Take(Rest(data, pos), n);
      pos := pos + |bytes|;
    }

    /** `fgets(buf, max + 1, fp)`: the line read (newline included), or None (NULL)
        when nothing was left. */
    method GetLine(max: nat) returns (line: Option<seq<byte>>)
      modifies this
      ensures var n := LineLength(Rest(data, old(pos)), max);
              && line == (if n == 0 then None else Some(Rest(data, old(pos))[..n]))
              && pos == old(pos) + n
    {
      var rest := Rest(data, pos);
      var n := 0;
      while n < |rest| && n < max
        invariant n <= |rest| && n <= max
        invariant LineLength(rest, max) == n + LineLength(rest[n..], max - n)
      {
        assert rest[n..][1..] == rest[n + 1..];
        if rest[n] == NEWLINE {
          n := n + 1;
          break;
        }
        n := n + 1;
      }
      line := if n == 0 then None else Some(rest[..n]);
      pos := pos + n;
    }
  }
}
