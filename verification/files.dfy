/** An open file handle as the counter sees it: the file's characters and the
    handle's cursor. The three operations are the ones `persist` performs:
    `seek`, `set_len` and `write_all`. */
module Files {

  const NUL: char := '\0'

  datatype File = File(content: seq<char>, pos: nat)

  function Zeros(n: nat): (z: seq<char>)
    ensures |z| == n
    ensures forall i :: 0 <= i < n ==> z[i] == NUL
  {
    seq(n, _ => NUL)
  }

  /** `Seek::seek(SeekFrom::Start(offset))`: moves the cursor, nothing else. */
  function Seek(f: File, offset: nat): File
  {
    f.(pos := offset)
  }

  /** `File::set_len`: cuts the file to n characters or extends it with NULs;
      the cursor stays where it was. */
  function SetLen(f: File, n: nat): File
  {
    if n <= |f.content| then f.(content := f.content[..n])
    else f.(content := f.content + Zeros(n - |f.content|))
  }

  lemma SetLenEffect(f: File, n: nat)
    ensures |SetLen(f, n).content| == n && SetLen(f, n).pos == f.pos
    ensures forall i :: 0 <= i < n && i < |f.content| ==> SetLen(f, n).content[i] == f.content[i]
    ensures forall i :: |f.content| <= i < n ==> SetLen(f, n).content[i] == NUL
  {
  }

  /** `Write::write_all` at the cursor: overwrites what is there, extends the
      file when it runs past the end (a cursor beyond the end leaves a gap of
      NULs), and advances the cursor past the data. */
  function Write(f: File, data: seq<char>): File
  {
    var padded := if f.pos <= |f.content| then f.content else f.content + Zeros(f.pos - |f.content|);
    var end := f.pos + |data|;
    var after := if end < |padded| then padded[end..] else [];
    File(padded[..f.pos] + data + after, end)
  }

  lemma WriteEffect(f: File, data: seq<char>)
    ensures var r := Write(f, data);
            && r.pos == f.pos + |data|
            && |r.content| == (if f.pos + |data| <= |f.content| then |f.content| else f.pos + |data|)
            && r.content[f.pos..f.pos + |data|] == data
            && (forall i :: 0 <= i < |f.content| && !(f.pos <= i < f.pos + |data|) ==> r.content[i] == f.content[i])
            && (forall i :: |f.content| <= i < f.pos ==> r.content[i] == NUL)
  {
  }

  /** Writing a shorter value over the start of a longer file without first
      truncating it keeps the old file's tail: the reason `persist` calls
      `set_len(0)` before writing. */
  lemma OverwriteWithoutTruncateLeavesResidue(f: File, data: seq<char>)
    requires |data| < |f.content|
    ensures Write(Seek(f, 0), data).content == data + f.content[|data|..]
  {
  }
}
