/**
 * Runtime secrets on two stores: the keyring, and the legacy file that the first keyring read
 * migrates from. `SecretStores` is the code; `Step` takes an operation apart at its accesses to the
 * stores, so that it can fail at, or be cut off after, any of them.
 */
module SecretBackend {
  import opened Basics

  const KEYRING_SECRET_MAX_BYTES: nat := 1024 * 1024

  type Bytes = seq<nat>

  /** Text is what was read or written as UTF-8. A file is read as text exactly when it is UTF-8. */
  datatype SecretValue = Text(bytes: Bytes) | Raw(bytes: Bytes)

  datatype SecretError = Misconfigured | ReadFailed | LegacyReadFailed | WriteFailed | MigrationFailed

  datatype Backend = File | Keyring

  /** How a write turns out: done, refused, or reported as failed although it took effect. */
  datatype WriteIo = WriteDone | WriteRefused | WriteLost

  /** How the accesses of one operation turn out. The legacy file is deleted as a private file; where that fails, its
      directory entry is removed without opening it. */
  datatype Io = Io(keyringReads: bool, fileReads: bool, write: WriteIo, legacyDeleted: bool, entryRemoved: bool)

  datatype Stores = Stores(keyring: Option<SecretValue>, file: Option<SecretValue>)

  /** The secret there is: the keyring entry if present, else the legacy file. */
  function Logical(s: Stores): Option<Bytes> {
    if s.keyring.Some? then Some(s.keyring.value.bytes)
    else if s.file.Some? then Some(s.file.value.bytes)
    else None
  }

  /** A bounded read of one store. */
  function Bounded(works: bool, content: Option<SecretValue>, maxBytes: nat): Option<Option<SecretValue>> {
    if !works || (content.Some? && |content.value.bytes| > maxBytes) then None else Some(content)
  }

  predicate KeyringTakes(v: SecretValue, maxBytes: nat) {
    |v.bytes| <= maxBytes && |v.bytes| <= KEYRING_SECRET_MAX_BYTES
  }

  predicate WriteReported(v: SecretValue, maxBytes: nat, w: WriteIo) {
    KeyringTakes(v, maxBytes) && w.WriteDone?
  }

  function KeyringAfterWrite(s: Stores, v: SecretValue, maxBytes: nat, w: WriteIo): Stores {
    if KeyringTakes(v, maxBytes) && !w.WriteRefused? then s.(keyring := Some(v)) else s
  }

  function WithoutLegacy(s: Stores, io: Io): Stores {
    if io.legacyDeleted || io.entryRemoved then s.(file := None) else s
  }

  // ----- One operation, access by access

  datatype Point =
    | ReadKeyring
    | ReadLegacy
    | Migrate(legacy: SecretValue)
    | RemoveAfterRead(legacy: SecretValue)
    | WriteKeyring(value: SecretValue)
    | RemoveAfterWrite
    | Returned(result: Result<Option<SecretValue>, SecretError>)

  datatype State = State(stores: Stores, point: Point)

  function Step(s: State, maxBytes: nat, io: Io): State {
    match s.point
    case ReadKeyring => (
      match Bounded(io.keyringReads, s.stores.keyring, maxBytes)
      case None => s.(point := Returned(Err(ReadFailed)))
      case Some(Some(v)) => s.(point := Returned(Ok(Some(v))))
      case Some(None) => s.(point := ReadLegacy))
    case ReadLegacy => (
      match Bounded(io.fileReads, s.stores.file, maxBytes)
      case None => s.(point := Returned(Err(LegacyReadFailed)))
      case Some(None) => s.(point := Returned(Ok(None)))
      case Some(Some(legacy)) => s.(point := Migrate(legacy)))
    case Migrate(legacy) =>
      var migrated := Raw(legacy.bytes);
      State(KeyringAfterWrite(s.stores, migrated, maxBytes, io.write),
            if WriteReported(migrated, maxBytes, io.write) then RemoveAfterRead(legacy)
            else Returned(Err(MigrationFailed)))
    case RemoveAfterRead(legacy) => State(WithoutLegacy(s.stores, io), Returned(Ok(Some(legacy))))
    case WriteKeyring(v) =>
      State(KeyringAfterWrite(s.stores, v, maxBytes, io.write),
            if WriteReported(v, maxBytes, io.write) then RemoveAfterWrite else Returned(Err(WriteFailed)))
    case RemoveAfterWrite => State(WithoutLegacy(s.stores, io), Returned(Ok(None)))
    case Returned(_) => s
  }

  /** The first n accesses of an operation: with n < 4 it may be cut off before it returns. */
  function Steps(s: State, maxBytes: nat, io: Io, n: nat): State {
    if n == 0 then s else Step(Steps(s, maxBytes, io, n - 1), maxBytes, io)
  }

  /** An operation that nothing cuts off: no operation has more than four accesses. */
  function Complete(s: State, maxBytes: nat, io: Io): State {
    Step(Step(Step(Step(s, maxBytes, io), maxBytes, io), maxBytes, io), maxBytes, io)
  }

  lemma CompleteIsFourSteps(s: State, maxBytes: nat, io: Io)
    requires s.point.ReadKeyring? || s.point.WriteKeyring?
    ensures Complete(s, maxBytes, io) == Steps(s, maxBytes, io, 4) && Complete(s, maxBytes, io).point.Returned?
  {
    assert Steps(s, maxBytes, io, 1) == Step(s, maxBytes, io);
    assert Steps(s, maxBytes, io, 2) == Step(Step(s, maxBytes, io), maxBytes, io);
    assert Steps(s, maxBytes, io, 3) == Step(Step(Step(s, maxBytes, io), maxBytes, io), maxBytes, io);
  }

  /** How a write under keyring selection ends when nothing cuts it off. */
  lemma CompleteWriteIs(before: Stores, v: SecretValue, maxBytes: nat, io: Io)
    ensures var fits := |v.bytes| <= maxBytes && |v.bytes| <= 1_048_576;
            Complete(State(before, WriteKeyring(v)), maxBytes, io) ==
            if fits && io.write == WriteDone then
              State(Stores(Some(v), if io.legacyDeleted || io.entryRemoved then None else before.file),
                    Returned(Ok(None)))
            else
              State(Stores(if fits && io.write == WriteLost then Some(v) else before.keyring, before.file),
                    Returned(Err(WriteFailed)))
  {
    var done := Step(State(before, WriteKeyring(v)), maxBytes, io);
    assert Step(Step(done, maxBytes, io), maxBytes, io) == Step(done, maxBytes, io);
  }

  /** How a read under keyring selection ends when nothing cuts it off: an entry in the keyring is returned; without one,
      the legacy file moves to the keyring and is returned. */
  lemma CompleteReadIs(before: Stores, maxBytes: nat, io: Io)
    ensures var end := Complete(State(before, ReadKeyring), maxBytes, io);
            match (before.keyring, before.file)
            case (Some(v), _) =>
              end == State(before, Returned(if io.keyringReads && |v.bytes| <= maxBytes then Ok(Some(v))
                                            else Err(ReadFailed)))
            case (None, None) =>
              end == State(before, Returned(if !io.keyringReads then Err(ReadFailed)
                                            else if !io.fileReads then Err(LegacyReadFailed)
                                            else Ok(None)))
            case (None, Some(legacy)) =>
              if !io.keyringReads then end == State(before, Returned(Err(ReadFailed)))
              else if !io.fileReads || |legacy.bytes| > maxBytes then
                end == State(before, Returned(Err(LegacyReadFailed)))
              else if |legacy.bytes| > 1_048_576 || io.write == WriteRefused then
                end == State(before, Returned(Err(MigrationFailed)))
              else if io.write == WriteLost then
                end == State(Stores(Some(Raw(legacy.bytes)), Some(legacy)), Returned(Err(MigrationFailed)))
              else
                end == State(Stores(Some(Raw(legacy.bytes)),
                                    if io.legacyDeleted || io.entryRemoved then None else Some(legacy)),
                             Returned(Ok(Some(legacy))))
  {
    var first := Step(State(before, ReadKeyring), maxBytes, io);
    if first.point.Returned? {
      assert Step(first, maxBytes, io) == first;
    } else {
      var second := Step(first, maxBytes, io);
      assert second.point.Returned? ==> Step(second, maxBytes, io) == second;
    }
  }

  // ----- The code

  class SecretStores {
    var keyring: Option<SecretValue>
    var file: Option<SecretValue>

    constructor (keyring: Option<SecretValue>, file: Option<SecretValue>)
      ensures Contents() == Stores(keyring, file)
    {
      this.keyring, this.file := keyring, file;
    }

    function Contents(): Stores
      reads this
    {
      Stores(keyring, file)
    }

    /** The legacy file stays only if both attempts at removal fail. */
    method RemoveLegacyFileSecret(io: Io)
      modifies this`file
      ensures Contents() == WithoutLegacy(old(Contents()), io)
      ensures file.Some? <==> old(file).Some? && !io.legacyDeleted && !io.entryRemoved
    {
      var deleted := io.legacyDeleted;
      if deleted {
        file := None;
      } else if io.entryRemoved {
        file := None;
      }
    }

    /** The write of the selected backend; says whether it reports success. */
    method WriteBounded(backend: Backend, v: SecretValue, maxBytes: nat, io: Io) returns (ok: bool)
      modifies this
      ensures backend.Keyring? ==> ok == WriteReported(v, maxBytes, io.write)
                                   && Contents() == KeyringAfterWrite(old(Contents()), v, maxBytes, io.write)
      ensures backend.Keyring? ==>
                && file == old(file)
                && (ok <==> |v.bytes| <= maxBytes && |v.bytes| <= 1_048_576 && io.write.WriteDone?)
                && keyring == if |v.bytes| <= maxBytes && |v.bytes| <= 1_048_576 && !io.write.WriteRefused? then Some(v)
                              else old(keyring)
      ensures backend.File? ==>
                && keyring == old(keyring)
                && (ok <==> |v.bytes| <= maxBytes && io.write.WriteDone?)
                && file == if |v.bytes| <= maxBytes && !io.write.WriteRefused? then Some(v) else old(file)
    {
      if |v.bytes| > maxBytes || (backend.Keyring? && |v.bytes| > KEYRING_SECRET_MAX_BYTES) {
        return false;
      }
      if !io.write.WriteRefused? {
        if backend.Keyring? {
          keyring := Some(v);
        } else {
          file := Some(v);
        }
      }
      ok := io.write.WriteDone?;
    }

    method WriteRuntimeSecretBounded(selection: Option<Backend>, v: SecretValue, maxBytes: nat, io: Io)
      returns (r: Result<Option<SecretValue>, SecretError>)
      modifies this
      ensures selection.None? ==> r == Err(Misconfigured) && Contents() == old(Contents())
      ensures selection == Some(Keyring) ==>
                State(Contents(), Returned(r)) == Complete(State(old(Contents()), WriteKeyring(v)), maxBytes, io)
      ensures selection == Some(Keyring) && r.Ok? ==>
                keyring == Some(v) && file == if io.legacyDeleted || io.entryRemoved then None else old(file)
      ensures selection == Some(File) ==>
                && keyring == old(keyring)
                && r == (if |v.bytes| <= maxBytes && io.write.WriteDone? then Ok(None) else Err(WriteFailed))
                && file == if |v.bytes| <= maxBytes && !io.write.WriteRefused? then Some(v) else old(file)
    {
      if selection.None? {
        return Err(Misconfigured);
      }
      var ok := WriteBounded(selection.value, v, maxBytes, io);
      if !ok {
        return Err(WriteFailed);
      }
      if selection.value.Keyring? {
        RemoveLegacyFileSecret(io);
      }
      r := Ok(None);
    }

    method ReadRuntimeSecretBounded(selection: Option<Backend>, maxBytes: nat, io: Io)
      returns (r: Result<Option<SecretValue>, SecretError>)
      modifies this
      ensures selection.None? ==> r == Err(Misconfigured) && Contents() == old(Contents())
      ensures selection == Some(Keyring) ==>
                State(Contents(), Returned(r)) == Complete(State(old(Contents()), ReadKeyring), maxBytes, io)
      ensures selection == Some(Keyring) && old(keyring) == None && old(file).Some? && r.Ok? ==>
                && r == Ok(old(file)) && keyring == Some(Raw(old(file).value.bytes))
                && file == if io.legacyDeleted || io.entryRemoved then None else old(file)
      ensures selection == Some(File) ==>
                && Contents() == old(Contents())
                && r == if io.fileReads && (file.Some? ==> |file.value.bytes| <= maxBytes) then Ok(file)
                        else Err(ReadFailed)
    {
      if selection.None? {
        return Err(Misconfigured);
      }
      var backend := selection.value;
      var read := if backend.Keyring? then Bounded(io.keyringReads, keyring, maxBytes)
                  else Bounded(io.fileReads, file, maxBytes);
      if read.None? {
        return Err(ReadFailed);
      }
      if read.value.Some? || backend.File? {
        return Ok(read.value);
      }
      var legacy := Bounded(io.fileReads, file, maxBytes);
      if legacy.None? {
        return Err(LegacyReadFailed);
      }
      if legacy.value.None? {
        return Ok(None);
      }
      var migrated := Raw(legacy.value.value.bytes);
      var ok := WriteBounded(Keyring, migrated, maxBytes, io);
      if !ok {
        return Err(MigrationFailed);
      }
      RemoveLegacyFileSecret(io);
      r := Ok(legacy.value);
    }

    /** The selected store is emptied unless that fails; the legacy file goes as well when the keyring is selected or
        anything failed. */
    method DeleteRuntimeSecret(selection: Option<Backend>, deleted: bool, io: Io)
      modifies this
      ensures keyring == if selection == Some(Keyring) && deleted then None else old(keyring)
      ensures selection == Some(File) && deleted ==> file == None
      ensures !(selection == Some(File) && deleted) ==>
                file == if io.legacyDeleted || io.entryRemoved then None else old(file)
    {
      match selection {
        case None =>
          RemoveLegacyFileSecret(io);
        case Some(backend) =>
          if deleted {
            if backend.Keyring? {
              keyring := None;
            } else {
              file := None;
            }
          }
          if !deleted || backend.Keyring? {
            RemoveLegacyFileSecret(io);
          }
      }
    }
  }

  // ----- What an operation can do, wherever it stops

  ghost predicate MovedToKeyring(s: Stores, before: Stores) {
    before.file.Some? && s == Stores(Some(Raw(before.file.value.bytes)), None)
  }

  /** What each point knows: the legacy file is given up only once the keyring has the secret. */
  ghost predicate ReadInv(s: State, before: Stores, io: Io) {
    && Logical(s.stores) == Logical(before)
    && match s.point
       case ReadKeyring => s.stores == before
       case ReadLegacy => s.stores == before && before.keyring == None
       case Migrate(legacy) => s.stores == before && before.keyring == None && before.file == Some(legacy)
       case RemoveAfterRead(legacy) =>
         && before.keyring == None && before.file == Some(legacy)
         && s.stores == Stores(Some(Raw(legacy.bytes)), before.file)
       case Returned(Ok(v)) =>
         && Logical(before) == (if v.Some? then Some(v.value.bytes) else None)
         && (if before.keyring.Some? || before.file.None? then s.stores == before
             else s.stores == Stores(Some(Raw(before.file.value.bytes)),
                                     if io.legacyDeleted || io.entryRemoved then None else before.file))
       case Returned(Err(_)) => s.stores.file == before.file
       case _ => false
  }

  lemma {:induction false} ReadKeepsSecret(before: Stores, maxBytes: nat, io: Io, n: nat)
    ensures ReadInv(Steps(State(before, ReadKeyring), maxBytes, io, n), before, io)
  {
    if n > 0 {
      ReadKeepsSecret(before, maxBytes, io, n - 1);
    }
  }

  ghost predicate WriteInv(s: State, before: Stores, v: SecretValue, io: Io) {
    match s.point
    case WriteKeyring(w) => w == v && s.stores == before
    case RemoveAfterWrite => s.stores == before.(keyring := Some(v))
    case Returned(Ok(_)) =>
      s.stores == Stores(Some(v), if io.legacyDeleted || io.entryRemoved then None else before.file)
    case Returned(Err(_)) => s.stores.file == before.file && (s.stores == before || s.stores.keyring == Some(v))
    case _ => false
  }

  lemma {:induction false} WriteSetsOrKeeps(before: Stores, v: SecretValue, maxBytes: nat, io: Io, n: nat)
    ensures WriteInv(Steps(State(before, WriteKeyring(v)), maxBytes, io, n), before, v, io)
  {
    if n > 0 {
      WriteSetsOrKeeps(before, v, maxBytes, io, n - 1);
    }
  }

  /** Wherever a read fails or is cut off, the secret is what it was; a read that succeeds returns it. */
  lemma ReadNeverLosesSecret(before: Stores, maxBytes: nat, io: Io, n: nat)
    ensures var s := Steps(State(before, ReadKeyring), maxBytes, io, n);
            && Logical(s.stores) == Logical(before)
            && (s.point.Returned? && s.point.result.Ok? ==>
                  Logical(before) == match s.point.result.value case None => None case Some(v) => Some(v.bytes))
            && (s.stores.file == before.file || MovedToKeyring(s.stores, before))
  {
    ReadKeepsSecret(before, maxBytes, io, n);
  }

  /** Wherever a write fails or is cut off, the secret is the old one or the new one; after success it is the new one.
      The legacy file is gone only when the new one is in place. */
  lemma WriteIsAllOrNothing(before: Stores, v: SecretValue, maxBytes: nat, io: Io, n: nat)
    ensures var s := Steps(State(before, WriteKeyring(v)), maxBytes, io, n);
            && (Logical(s.stores) == Logical(before) || Logical(s.stores) == Some(v.bytes))
            && (s.point.Returned? && s.point.result.Ok? ==> Logical(s.stores) == Some(v.bytes))
            && (s.stores.file != before.file ==> s.stores.keyring == Some(v))
  {
    WriteSetsOrKeeps(before, v, maxBytes, io, n);
  }

  // ----- Histories

  /** An operation, how its accesses turn out, and after how many of them it is cut off. */
  datatype Operation = Read(maxBytes: nat, io: Io, cut: nat) | Write(value: SecretValue, maxBytes: nat, io: Io, cut: nat)

  function Begin(op: Operation): Point {
    match op
    case Read(_, _, _) => ReadKeyring
    case Write(v, _, _, _) => WriteKeyring(v)
  }

  function Outcome(stores: Stores, op: Operation): State {
    Steps(State(stores, Begin(op)), op.maxBytes, op.io, op.cut)
  }

  function After(stores: Stores, history: seq<Operation>): Stores {
    if history == [] then stores
    else Outcome(After(stores, history[..|history| - 1]), history[|history| - 1]).stores
  }

  predicate Succeeds(stores: Stores, history: seq<Operation>, k: nat)
    requires k < |history|
  {
    var p := Outcome(After(stores, history[..k]), history[k]).point;
    p.Returned? && p.result.Ok?
  }

  /** Operation k wrote the present secret, and no write after it succeeded. */
  ghost predicate LastWriter(stores: Stores, history: seq<Operation>, k: nat) {
    && k < |history| && history[k].Write?
    && Logical(After(stores, history)) == Some(history[k].value.bytes)
    && forall j | k < j < |history| && history[j].Write? :: !Succeeds(stores, history, j)
  }

  ghost predicate NoWriteSucceeds(stores: Stores, history: seq<Operation>) {
    forall j | 0 <= j < |history| && history[j].Write? :: !Succeeds(stores, history, j)
  }

  /** The last operation is a write of the present secret. */
  ghost predicate Settles(stores: Stores, history: seq<Operation>)
    requires history != []
  {
    history[|history| - 1].Write? && Logical(After(stores, history)) == Some(history[|history| - 1].value.bytes)
  }

  /** The last operation leaves the secret as it was, and is no write that succeeds. */
  ghost predicate Leaves(stores: Stores, history: seq<Operation>)
    requires history != []
  {
    && Logical(After(stores, history)) == Logical(After(stores, history[..|history| - 1]))
    && (history[|history| - 1].Write? ==> !Succeeds(stores, history, |history| - 1))
  }

  lemma LastStep(stores: Stores, history: seq<Operation>) returns (settled: bool)
    requires history != []
    ensures if settled then Settles(stores, history) else Leaves(stores, history)
  {
    var n := |history| - 1;
    var before := After(stores, history[..n]);
    match history[n] {
      case Read(maxBytes, io, cut) =>
        ReadNeverLosesSecret(before, maxBytes, io, cut);
        settled := false;
      case Write(v, maxBytes, io, cut) =>
        WriteIsAllOrNothing(before, v, maxBytes, io, cut);
        settled := Logical(After(stores, history)) == Some(v.bytes);
    }
  }

  /** Whether an earlier operation succeeds does not depend on the last one. */
  lemma SucceedsInFront(stores: Stores, history: seq<Operation>, j: nat)
    requires j < |history| - 1
    ensures Succeeds(stores, history, j) <==> Succeeds(stores, history[..|history| - 1], j)
  {
    assert history[..|history| - 1][..j] == history[..j];
  }

  lemma WriterStays(stores: Stores, history: seq<Operation>, k: nat)
    requires history != [] && Leaves(stores, history) && LastWriter(stores, history[..|history| - 1], k)
    ensures LastWriter(stores, history, k)
  {
    forall j | k < j < |history| && history[j].Write?
      ensures !Succeeds(stores, history, j)
    {
      if j < |history| - 1 {
        SucceedsInFront(stores, history, j);
      }
    }
  }

  lemma NoneStillSucceeds(stores: Stores, history: seq<Operation>)
    requires history != [] && Leaves(stores, history) && NoWriteSucceeds(stores, history[..|history| - 1])
    ensures NoWriteSucceeds(stores, history)
  {
    forall j | 0 <= j < |history| && history[j].Write?
      ensures !Succeeds(stores, history, j)
    {
      if j < |history| - 1 {
        SucceedsInFront(stores, history, j);
      }
    }
  }

  /** Operation k gave the legacy file up: a write that succeeded, or a read that found no keyring entry and succeeded,
      with one of the two ways of removal working. */
  ghost predicate GaveUpFile(stores: Stores, history: seq<Operation>, k: nat) {
    && k < |history| && Succeeds(stores, history, k)
    && (history[k].Write? || After(stores, history[..k]).keyring == None)
    && (history[k].io.legacyDeleted || history[k].io.entryRemoved)
  }

  lemma LastOperationAndFile(stores: Stores, history: seq<Operation>)
    requires history != []
    ensures var n := |history| - 1;
            After(stores, history).file ==
            if GaveUpFile(stores, history, n) then None else After(stores, history[..n]).file
  {
    var n := |history| - 1;
    var before := After(stores, history[..n]);
    match history[n] {
      case Read(maxBytes, io, cut) => ReadKeepsSecret(before, maxBytes, io, cut);
      case Write(v, maxBytes, io, cut) => WriteSetsOrKeeps(before, v, maxBytes, io, cut);
    }
  }

  /** Over any history, the legacy file is what it was, until an operation gives it up; then it is gone for good. */
  lemma {:induction false} LegacyFileGoes(stores: Stores, history: seq<Operation>)
    ensures After(stores, history).file ==
            if exists k :: GaveUpFile(stores, history, k) then None else stores.file
  {
    if history != [] {
      var n := |history| - 1;
      LegacyFileGoes(stores, history[..n]);
      LastOperationAndFile(stores, history);
      forall k: nat | k < n
        ensures GaveUpFile(stores, history, k) <==> GaveUpFile(stores, history[..n], k)
      {
        SucceedsInFront(stores, history, k);
        assert history[..n][..k] == history[..k];
      }
    }
  }

  /** Over any history of reads and writes, whole, failed or cut off, under keyring selection: the secret is the initial
      one, unless a write succeeded, or that of a write which no successful write followed. */
  lemma {:induction false} SecretIsLastWritten(stores: Stores, history: seq<Operation>)
    ensures || (exists k :: LastWriter(stores, history, k))
            || (Logical(After(stores, history)) == Logical(stores) && NoWriteSucceeds(stores, history))
  {
    if history != [] {
      var n := |history| - 1;
      SecretIsLastWritten(stores, history[..n]);
      var settled := LastStep(stores, history);
      if settled {
        assert LastWriter(stores, history, n);
      } else if k :| LastWriter(stores, history[..n], k) {
        WriterStays(stores, history, k);
      } else {
        NoneStillSucceeds(stores, history);
      }
    }
  }

  /** Migration keeps the bytes but not their kind: the read after the one that migrated returns what that one returned
      exactly when the legacy file did not hold text. */
  lemma MigrationForgetsText(legacy: SecretValue, maxBytes: nat)
    requires |legacy.bytes| <= maxBytes && |legacy.bytes| <= KEYRING_SECRET_MAX_BYTES
    ensures var io := Io(true, true, WriteDone, true, true);
            var first := Complete(State(Stores(None, Some(legacy)), ReadKeyring), maxBytes, io);
            var second := Complete(State(first.stores, ReadKeyring), maxBytes, io);
            && first.point == Returned(Ok(Some(legacy)))
            && second.point == Returned(Ok(Some(Raw(legacy.bytes))))
            && (second.point == first.point <==> legacy.Raw?)
  {
  }
}
