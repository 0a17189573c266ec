/** What a positional write does to the bytes of a file. */
module Files {
  import opened Common

  function Zeros(n: nat): (z: Bytes)
    ensures |z| == n
    ensures forall i | 0 <= i < n :: z[i] == 0
  {
    if n == 0 then [] else [0] + Zeros(n - 1)
  }

  /** Writing past the end fills the gap with zeros; writing nothing changes nothing. */
  function WriteAt(file: Bytes, pos: nat, data: Bytes): Bytes {
    if data == [] then file
    else if pos > |file| then file + Zeros(pos - |file|) + data
    else if pos + |data| < |file| then file[..pos] + data + file[pos + |data|..]
    else file[..pos] + data
  }

  lemma WriteAtBytes(file: Bytes, pos: nat, data: Bytes)
    requires data != []
    ensures |WriteAt(file, pos, data)| == Max(|file|, pos + |data|)
    ensures forall i | 0 <= i < |WriteAt(file, pos, data)| ::
              WriteAt(file, pos, data)[i] ==
              if pos <= i < pos + |data| then data[i - pos] else if i < |file| then file[i] else 0
  {
  }

  /** Copying a stream piece by piece is one write of the whole stream. */
  lemma WriteAtCompose(file: Bytes, pos: nat, a: Bytes, b: Bytes)
    ensures WriteAt(WriteAt(file, pos, a), pos + |a|, b) == WriteAt(file, pos, a + b)
  {
    if a == [] {
      assert a + b == b;
    } else if b == [] {
      assert a + b == a;
    } else {
      WriteAtBytes(file, pos, a);
      WriteAtBytes(WriteAt(file, pos, a), pos + |a|, b);
      WriteAtBytes(file, pos, a + b);
    }
  }

  lemma WriteAtEnd(file: Bytes, data: Bytes)
    ensures WriteAt(file, |file|, data) == file + data
  {
  }
}
