/**
  The block device of src/fs/block_dev.rs, as a contract, and what a file-system operation does to it.

  An operation is described by its plan: the accesses it makes, in order, and the value it returns if
  all of them succeed. Any access may fail. A failed transfer moves some prefix of the block, so a
  failed write leaves the old block, the new one, or the front of the new one over the old one, and
  a failed read leaves the front of the block in the caller's buffer.
*/
module FsDevice {
  import opened Bytes
  import opened FsLayout

  type Disk = seq<Block>

  /** Block `id`, or zeros where the device has no such block (every access to it fails). */
  function At(disk: Disk, id: nat): Block {
    if id < |disk| then disk[id] else ZeroBlock()
  }

  datatype FileSystemError =
    FormatFailed | MountFailed | BlockError | NoSpace | NameTooLong | CorruptLayout | InvalidSuperBlock

  /** `Panic` stands for a Rust panic. */
  datatype Result<+T> = Ok(value: T) | Err(error: FileSystemError) | Panic

  datatype Fault = Works | Fails(kept: nat)

  /** A transfer of block `b` over block `a` that stopped after `kept` bytes. */
  function Torn(a: Block, b: Block, kept: nat): Block {
    if kept >= BLOCK_SIZE then b else b[..kept] + a[kept..]
  }

  datatype Access = Read(id: nat) | Write(id: nat, block: Block)

  function Now(faults: seq<Fault>): Fault {
    if faults == [] then Works else faults[0]
  }

  function Later(faults: seq<Fault>): seq<Fault> {
    if faults == [] then [] else faults[1..]
  }

  predicate Succeeds(disk: Disk, a: Access, f: Fault) {
    a.id < |disk| && f.Works?
  }

  /** The disk after one access. */
  function After(disk: Disk, a: Access, f: Fault): (d: Disk)
    ensures |d| == |disk|
  {
    if a.Read? || a.id >= |disk| then disk else
      disk[a.id := if f.Works? then a.block else Torn(disk[a.id], a.block, f.kept)]
  }

  datatype Outcome = Outcome(disk: Disk, faults: seq<Fault>, done: bool)

  /** Makes the accesses in order and stops at the first that fails. */
  function Exec(disk: Disk, faults: seq<Fault>, steps: seq<Access>): (o: Outcome)
    ensures |o.disk| == |disk|
    decreases |steps|
  {
    if steps == [] then Outcome(disk, faults, true) else
      var d := After(disk, steps[0], Now(faults));
      if Succeeds(disk, steps[0], Now(faults)) then Exec(d, Later(faults), steps[1..])
      else Outcome(d, Later(faults), false)
  }

  /** The disk after all accesses succeeded. */
  function Apply(disk: Disk, steps: seq<Access>): (d: Disk)
    ensures |d| == |disk|
    decreases |steps|
  {
    if steps == [] then disk else Apply(After(disk, steps[0], Works), steps[1..])
  }

  lemma {:induction false} ExecAppend(disk: Disk, faults: seq<Fault>, s: seq<Access>, t: seq<Access>)
    ensures var o := Exec(disk, faults, s);
            Exec(disk, faults, s + t) == if o.done then Exec(o.disk, o.faults, t) else o
    decreases |s|
  {
    if s == [] {
      assert s + t == t;
    } else {
      assert (s + t)[0] == s[0] && (s + t)[1..] == s[1..] + t;
      ExecAppend(After(disk, s[0], Now(faults)), Later(faults), s[1..], t);
    }
  }

  lemma {:induction false} ExecDone(disk: Disk, faults: seq<Fault>, steps: seq<Access>)
    requires Exec(disk, faults, steps).done
    ensures Exec(disk, faults, steps).disk == Apply(disk, steps)
    decreases |steps|
  {
    if steps != [] {
      ExecDone(After(disk, steps[0], Works), Later(faults), steps[1..]);
    }
  }

  /** Whether every access of `steps` falls on the device. */
  predicate InRange(disk: Disk, steps: seq<Access>) {
    forall i :: 0 <= i < |steps| ==> steps[i].id < |disk|
  }

  /** On a device without faults the accesses all succeed exactly when they fall on the device. */
  lemma {:induction false} ExecReliable(disk: Disk, steps: seq<Access>)
    ensures Exec(disk, [], steps).done <==> InRange(disk, steps)
    ensures Exec(disk, [], steps).faults == []
    decreases |steps|
  {
    if steps != [] {
      ExecReliable(After(disk, steps[0], Works), steps[1..]);
      assert InRange(disk, steps) <==> steps[0].id < |disk| && InRange(disk, steps[1..]) by {
        if steps[0].id < |disk| && InRange(disk, steps[1..]) {
          forall i | 0 <= i < |steps| ensures steps[i].id < |disk| {
            if i > 0 { assert steps[i] == steps[1..][i - 1]; }
          }
        }
        if InRange(disk, steps) {
          forall i | 0 <= i < |steps[1..]| ensures steps[1..][i].id < |disk| {
            assert steps[1..][i] == steps[i + 1];
          }
        }
      }
    }
  }

  datatype Plan<+T> = Plan(steps: seq<Access>, result: Result<T>)

  datatype Effect<+T> = Effect(disk: Disk, faults: seq<Fault>, result: Result<T>)

  /** What an operation with plan `p` does; every failed access is reported as `BlockError`. */
  function Perform<T>(disk: Disk, faults: seq<Fault>, p: Plan<T>): Effect<T> {
    var o := Exec(disk, faults, p.steps);
    Effect(o.disk, o.faults, if o.done then p.result else Err(BlockError))
  }

  class Device {
    var disk: Disk
    /** The failures to come; a device with none left is reliable. */
    var faults: seq<Fault>

    constructor (disk: Disk, faults: seq<Fault>)
      ensures this.disk == disk && this.faults == faults
    {
      this.disk, this.faults := disk, faults;
    }

    method ReadBlocks(id: nat, buffer: array<byte>) returns (ok: bool)
      requires buffer.Length == BLOCK_SIZE
      modifies this`faults, buffer
      ensures Outcome(disk, faults, ok) == old(Exec(disk, faults, [Read(id)]))
      ensures ok == old(Succeeds(disk, Read(id), Now(faults))) && faults == old(Later(faults))
      ensures ok ==> buffer[..] == disk[id]
      ensures !ok && id < |disk| ==> buffer[..] == Torn(old(buffer[..]), disk[id], old(Now(faults)).kept)
      ensures id >= |disk| ==> buffer[..] == old(buffer[..])
    {
      ok := id < |disk| && Now(faults).Works?;
      if id < |disk| {
        var moved := if ok then BLOCK_SIZE else Now(faults).kept;
        var content := Torn(buffer[..], disk[id], moved);
        forall i | 0 <= i < BLOCK_SIZE {
          buffer[i] := content[i];
        }
        assert buffer[..] == content;
      }
      faults := Later(faults);
    }

    method WriteBlocks(id: nat, buffer: array<byte>) returns (ok: bool)
      requires buffer.Length == BLOCK_SIZE
      modifies this
      ensures Outcome(disk, faults, ok) == old(Exec(disk, faults, [Write(id, buffer[..])]))
    {
      ok := id < |disk| && Now(faults).Works?;
      disk := After(disk, Write(id, buffer[..]), Now(faults));
      faults := Later(faults);
    }
  }
}
