/**
  Writing one held configuration file, with every way an operation can go wrong.

  A file has the bytes a read sees and a flag saying whether those bytes are known to be on disk.
  After a crash an unsynchronised file may hold anything at all. A write, a truncation or a
  synchronisation may misbehave: it may leave any bytes and may report success regardless. The
  model trusts two things only: reads return the file's bytes, and a synchronisation that reports
  success has put those bytes on disk.
 */
module ConfigFile {
  import opened Basics

  const MAX_CONFIG_BYTES := 4 * 1024 * 1024

  datatype File = File(content: seq<Byte>, position: nat, synced: bool)

  datatype Behaviour = Works | Misbehaves(leaves: seq<Byte>, reportsOk: bool)
  {
    predicate ReportsOk() {
      Works? || reportsOk
    }
  }

  /** How each operation of one `write_verified` call behaves. */
  datatype Script = Script(
    rewind: bool,
    write: Behaviour,
    setLength: Behaviour,
    sync: Behaviour,
    rewindAgain: bool,
    read: bool)

  const NoFaults := Script(true, Works, Works, Works, true, true)

  datatype WriteError = NotPositioned | WriteIncomplete | LengthUnconfirmed | SyncUnconfirmed
                      | ReadbackNotPositioned | ReadbackFailed | ReadbackDiffers

  // The operations.

  function Rewound(f: File): File {
    f.(position := 0)
  }

  /** `bytes` laid over the content at the position, which then moves past them. */
  function Written(f: File, bytes: seq<Byte>, b: Behaviour): File {
    match b
    case Works =>
      var at := Min(f.position, |f.content|);
      File(f.content[..at] + bytes + f.content[Min(at + |bytes|, |f.content|)..], at + |bytes|, false)
    case Misbehaves(leaves, _) => File(leaves, |leaves|, false)
  }

  function Resized(f: File, length: nat, b: Behaviour): File {
    match b
    case Works =>
      if length <= |f.content| then f.(content := f.content[..length], synced := false)
      else f.(content := f.content + seq(length - |f.content|, i => 0), synced := false)
    case Misbehaves(leaves, _) => f.(content := leaves, synced := false)
  }

  function Synchronised(f: File, b: Behaviour): File {
    match b
    case Works => f.(synced := true)
    case Misbehaves(leaves, ok) => f.(content := leaves, synced := ok)
  }

  /** What a read of at most one byte over the limit returns. */
  function ReadCapped(f: File): seq<Byte> {
    var at := Min(f.position, |f.content|);
    f.content[at..Min(at + MAX_CONFIG_BYTES + 1, |f.content|)]
  }

  function AfterRead(f: File): File {
    f.(position := Min(f.position, |f.content|) + |ReadCapped(f)|)
  }

  /** Every state the file passes through, and the error, if any, the call ends with. */
  datatype Attempt = Attempt(trail: seq<File>, error: Option<WriteError>)

  function WriteVerified(f: File, bytes: seq<Byte>, s: Script): (a: Attempt)
    ensures a.trail != [] && a.trail[0] == f
  {
    if !s.rewind then Attempt([f], Some(NotPositioned)) else
    var written := Written(Rewound(f), bytes, s.write);
    if !s.write.ReportsOk() then Attempt([f, written], Some(WriteIncomplete)) else
    var resized := Resized(written, |bytes|, s.setLength);
    if !s.setLength.ReportsOk() then Attempt([f, written, resized], Some(LengthUnconfirmed)) else
    var stable := Synchronised(resized, s.sync);
    if !s.sync.ReportsOk() then Attempt([f, written, resized, stable], Some(SyncUnconfirmed)) else
    if !s.rewindAgain then Attempt([f, written, resized, stable], Some(ReadbackNotPositioned)) else
    if !s.read then Attempt([f, written, resized, stable, Rewound(stable)], Some(ReadbackFailed)) else
    Attempt([f, written, resized, stable, AfterRead(Rewound(stable))],
            if ReadCapped(Rewound(stable)) == bytes then None else Some(ReadbackDiffers))
  }

  function Final(a: Attempt): File
    requires a.trail != []
  {
    a.trail[|a.trail| - 1]
  }

  /** The exact bytes are in the file and on disk. */
  predicate Holds(f: File, bytes: seq<Byte>) {
    f.content == bytes && f.synced
  }

  /** Every confirmed write of these bytes left exactly them in the file and on disk. */
  ghost predicate ReadbackSound(bytes: seq<Byte>) {
    forall f: File, s: Script ::
      WriteVerified(f, bytes, s).error.None? ==> Holds(Final(WriteVerified(f, bytes, s)), bytes)
  }

  /** The error names the first operation that did not report success, or a readback that differs. */
  lemma FirstFaultIsNamed(f: File, bytes: seq<Byte>, s: Script)
    ensures var error := WriteVerified(f, bytes, s).error;
      && (error == Some(NotPositioned) <==> !s.rewind)
      && (error == Some(WriteIncomplete) <==> s.rewind && !s.write.ReportsOk())
      && (error == Some(LengthUnconfirmed) <==> s.rewind && s.write.ReportsOk() && !s.setLength.ReportsOk())
      && (error == Some(SyncUnconfirmed) <==>
            s.rewind && s.write.ReportsOk() && s.setLength.ReportsOk() && !s.sync.ReportsOk())
      && (error == Some(ReadbackNotPositioned) || error == Some(ReadbackFailed) || error == Some(ReadbackDiffers) || error == None
          <==> s.rewind && s.write.ReportsOk() && s.setLength.ReportsOk() && s.sync.ReportsOk())
      && (error == Some(ReadbackNotPositioned) ==> !s.rewindAgain) && (error == Some(ReadbackFailed) ==> s.rewindAgain && !s.read)
      && (error == Some(ReadbackDiffers) ==> s.rewindAgain && s.read) && (error == None ==> s.rewindAgain && s.read)
    ensures !s.rewind ==> Final(WriteVerified(f, bytes, s)) == f
  {
  }

  lemma FaultlessWriteIsConfirmed(f: File, bytes: seq<Byte>)
    requires |bytes| <= MAX_CONFIG_BYTES
    ensures WriteVerified(f, bytes, NoFaults).error.None?
    ensures Holds(Final(WriteVerified(f, bytes, NoFaults)), bytes)
  {
    var written := Written(Rewound(f), bytes, Works);
    assert Resized(written, |bytes|, Works).content == bytes;
  }

  /** Whatever misbehaves, confirmation is sound exactly for bytes that are not one over the read limit. */
  lemma ReadbackSoundExactly(bytes: seq<Byte>)
    ensures ReadbackSound(bytes) <==> |bytes| != MAX_CONFIG_BYTES + 1
  {
    if |bytes| == MAX_CONFIG_BYTES + 1 {
      var s := NoFaults.(sync := Misbehaves(bytes + [0], true));
      var stable := Synchronised(Resized(Written(Rewound(File([], 0, true)), bytes, Works), |bytes|, Works), s.sync);
      assert ReadCapped(Rewound(stable)) == bytes;
      assert WriteVerified(File([], 0, true), bytes, s).error.None?;
      assert |AfterRead(Rewound(stable)).content| != |bytes|;
    }
  }

  /** A held file, updated in place. */
  class HeldFile {
    var content: seq<Byte>
    var position: nat
    var synced: bool

    function Value(): File
      reads this
    {
      File(content, position, synced)
    }

    method Rewind(ok: bool) returns (confirmed: bool)
      modifies this`position
      ensures confirmed == ok && Value() == if ok then Rewound(old(Value())) else old(Value())
    {
      if ok {
        position := 0;
      }
      confirmed := ok;
    }

    method WriteAll(bytes: seq<Byte>, b: Behaviour) returns (confirmed: bool)
      modifies this
      ensures confirmed == b.ReportsOk() && Value() == Written(old(Value()), bytes, b)
    {
      match b {
        case Works =>
          var at := Min(position, |content|);
          content := content[..at] + bytes + content[Min(at + |bytes|, |content|)..];
          position := at + |bytes|;
        case Misbehaves(leaves, _) =>
          content := leaves;
          position := |leaves|;
      }
      synced := false;
      confirmed := b.ReportsOk();
    }

    method SetLength(length: nat, b: Behaviour) returns (confirmed: bool)
      modifies this`content, this`synced
      ensures confirmed == b.ReportsOk() && Value() == Resized(old(Value()), length, b)
    {
      match b {
        case Works =>
          if length <= |content| {
            content := content[..length];
          } else {
            content := content + seq(length - |content|, i => 0);
          }
        case Misbehaves(leaves, _) =>
          content := leaves;
      }
      synced := false;
      confirmed := b.ReportsOk();
    }

    method SyncContents(b: Behaviour) returns (confirmed: bool)
      modifies this`content, this`synced
      ensures confirmed == b.ReportsOk() && Value() == Synchronised(old(Value()), b)
    {
      match b {
        case Works =>
          synced := true;
        case Misbehaves(leaves, ok) =>
          content := leaves;
          synced := ok;
      }
      confirmed := b.ReportsOk();
    }

    method ReadToEnd() returns (observed: seq<Byte>)
      modifies this`position
      ensures observed == ReadCapped(old(Value())) && Value() == AfterRead(old(Value()))
    {
      var at := Min(position, |content|);
      observed := content[at..Min(at + MAX_CONFIG_BYTES + 1, |content|)];
      position := at + |observed|;
    }

    method WriteAndVerify(bytes: seq<Byte>, s: Script) returns (error: Option<WriteError>)
      modifies this
      ensures Value() == Final(WriteVerified(old(Value()), bytes, s))
      ensures error == WriteVerified(old(Value()), bytes, s).error
      ensures error.None? && |bytes| <= MAX_CONFIG_BYTES ==> content == bytes && synced
    {
      var confirmed := Rewind(s.rewind);
      if !confirmed {
        return Some(NotPositioned);
      }
      confirmed := WriteAll(bytes, s.write);
      if !confirmed {
        return Some(WriteIncomplete);
      }
      confirmed := SetLength(|bytes|, s.setLength);
      if !confirmed {
        return Some(LengthUnconfirmed);
      }
      confirmed := SyncContents(s.sync);
      if !confirmed {
        return Some(SyncUnconfirmed);
      }
      confirmed := Rewind(s.rewindAgain);
      if !confirmed {
        return Some(ReadbackNotPositioned);
      }
      if !s.read {
        return Some(ReadbackFailed);
      }
      var observed := ReadToEnd();
      if observed != bytes {
        return Some(ReadbackDiffers);
      }
      error := None;
    }
  }
}
