/**
 * Over-the-air updates of a device with two firmware banks: the update context as a value,
 * one function per call on it, and what every run of calls keeps.
 */
module Ota {
  import opened Bits

  const MAX_CHUNK: int := 256
  const MAX_PAYLOAD: int := 65536
  const FLASH_BANK_SIZE: uint32 := 65536
  const FW_HASH_SIZE: nat := 32
  const DEV_ID_SIZE: nat := 16

  type Hash = h: seq<byte> | |h| == 32 witness seq(32, i => 0)
  type DeviceId = d: seq<byte> | |d| == 16 witness seq(16, i => 0)

  function Zeros(n: nat): (r: seq<byte>)
    ensures |r| == n
  {
    seq(n, i => 0)
  }

  const NO_HASH: Hash := Zeros(FW_HASH_SIZE)

  datatype UpdateState = IDLE | CHECKING | DOWNLOADING | VERIFYING | APPLYING | COMMITTED | ROLLED_BACK | FAILED

  datatype FirmwareBank = FirmwareBank(baseAddr: uint32, size: uint32, version: uint32, active: bool, valid: bool,
                                       fwHash: Hash)

  const ERASED_BANK := FirmwareBank(0, 0, 0, false, false, NO_HASH)

  /** The manifest fields that decide anything. */
  datatype Manifest = Manifest(fwVersion: uint32, fwSize: uint32, fwHash: Hash, deviceId: DeviceId,
                               minBootloaderVer: uint32)

  const BLANK_MANIFEST := Manifest(0, 0, NO_HASH, Zeros(DEV_ID_SIZE), 0)

  datatype Context = Context(
    deviceId: DeviceId, banks: seq<FirmwareBank>, activeBank: int, currentVersion: uint32,
    bytesReceived: uint32, totalSize: uint32, updateState: UpdateState, receiveBuffer: seq<byte>,
    currentManifest: Manifest, manifestVerified: bool, retryCount: int, maxRetries: int)
  {
    ghost predicate WellFormed() {
      |banks| == 2 && 0 <= activeBank < 2 && |receiveBuffer| == MAX_PAYLOAD && bytesReceived <= MAX_PAYLOAD
    }

    function Active(): FirmwareBank
      requires WellFormed()
    {
      banks[activeBank]
    }

    function Inactive(): FirmwareBank
      requires WellFormed()
    {
      banks[1 - activeBank]
    }
  }

  /** The polynomial hash of the bytes, with base 31 and the wrap-around of 32-bit words. */
  function PolyHash(s: seq<byte>): uint32 {
    if |s| == 0 then 0 else HashStep(PolyHash(s[..|s| - 1]), s[|s| - 1])
  }

  function HashStep(h: uint32, c: byte): uint32 {
    (h * 31 + c) % WORD_SIZE
  }

  /** C adds a signed length to an unsigned count in unsigned arithmetic. */
  function WrappedSum(count: uint32, len: int): uint32 {
    (count + len) % WORD_SIZE
  }

  // ---------- The calls on the context, as functions on its value ----------

  predicate ManifestVerified(c: Context, m: Manifest) {
    && m.fwVersion > c.currentVersion
    && 0 < m.fwSize <= MAX_PAYLOAD
    && m.deviceId == c.deviceId
    && m.minBootloaderVer <= 1
    && m.fwHash != NO_HASH
  }

  datatype Call =
    | Begin(manifest: Manifest)
    | Receive(chunk: seq<byte>, len: int)
    | VerifyAndApply
    | Commit
    | Rollback
  {
    /** The caller's buffer holds the length announced, when that can be copied at all. */
    ghost predicate Sound() {
      Receive? && 0 < len <= MAX_CHUNK ==> len <= |chunk|
    }
  }

  datatype Outcome = Outcome(context: Context, ok: bool)

  function Initial(deviceId: DeviceId): Context {
    Context(deviceId,
            [FirmwareBank(0x0800_0000, FLASH_BANK_SIZE, 1, true, true, NO_HASH),
             FirmwareBank(0x0801_0000, FLASH_BANK_SIZE, 0, false, false, NO_HASH)],
            0, 1, 0, 0, IDLE, Zeros(MAX_PAYLOAD), BLANK_MANIFEST, false, 0, 3)
  }

  function AfterBegin(c: Context, m: Manifest): Outcome {
    if c.updateState != IDLE || !ManifestVerified(c, m) then Outcome(c, false)
    else Outcome(c.(currentManifest := m, updateState := DOWNLOADING, bytesReceived := 0, totalSize := m.fwSize,
                    manifestVerified := true, retryCount := 0, receiveBuffer := Zeros(MAX_PAYLOAD)), true)
  }

  function AfterReceive(c: Context, chunk: seq<byte>, len: int): Outcome
    requires c.WellFormed() && Receive(chunk, len).Sound()
  {
    if c.updateState != DOWNLOADING then Outcome(c, false)
    else if WrappedSum(c.bytesReceived, len) > MAX_PAYLOAD then Outcome(c.(updateState := FAILED), false)
    else if len <= 0 || len > MAX_CHUNK then Outcome(c, false)
    else
      var received := c.bytesReceived + len;
      var buffer := c.receiveBuffer[..c.bytesReceived] + chunk[..len] + c.receiveBuffer[received..];
      Outcome(c.(receiveBuffer := buffer, bytesReceived := received,
                 updateState := if received >= c.totalSize then VERIFYING else c.updateState), true)
  }

  function AfterVerify(c: Context): Outcome
    requires c.WellFormed()
  {
    if c.updateState != VERIFYING then Outcome(c, false)
    else if c.bytesReceived != c.totalSize then Outcome(c.(updateState := FAILED), false)
    else if PolyHash(c.receiveBuffer[..c.bytesReceived]) != PolyHash(c.currentManifest.fwHash)
    then Outcome(c.(updateState := FAILED), false)
    else
      var written := c.Inactive().(version := c.currentManifest.fwVersion, fwHash := c.currentManifest.fwHash,
                                   valid := true, active := false);
      Outcome(c.(banks := c.banks[1 - c.activeBank := written], updateState := APPLYING), true)
  }

  function AfterCommit(c: Context): Outcome
    requires c.WellFormed()
  {
    if c.updateState != APPLYING then Outcome(c, false)
    else
      var before, now := c.activeBank, 1 - c.activeBank;
      Outcome(c.(banks := c.banks[before := c.banks[before].(active := false)][now := c.banks[now].(active := true)],
                 activeBank := now, currentVersion := c.banks[now].version, updateState := COMMITTED), true)
  }

  function AfterRollback(c: Context): Outcome
    requires c.WellFormed()
  {
    if c.updateState == IDLE || c.updateState == COMMITTED then Outcome(c, false)
    else Outcome(c.(banks := c.banks[1 - c.activeBank := ERASED_BANK], updateState := IDLE,
                    bytesReceived := 0, manifestVerified := false), true)
  }

  function Step(c: Context, call: Call): (r: Outcome)
    requires c.WellFormed() && call.Sound()
    ensures r.context.WellFormed()
  {
    match call
    case Begin(m) => AfterBegin(c, m)
    case Receive(chunk, len) => AfterReceive(c, chunk, len)
    case VerifyAndApply => AfterVerify(c)
    case Commit => AfterCommit(c)
    case Rollback => AfterRollback(c)
  }

  // ---------- The context updated in place ----------

  class OtaUpdateCtx {
    const deviceId: DeviceId
    const banks: array<FirmwareBank>
    var activeBank: int
    var currentVersion: uint32
    var bytesReceived: uint32
    var totalSize: uint32
    var updateState: UpdateState
    const receiveBuffer: array<byte>
    var currentManifest: Manifest
    var manifestVerified: bool
    var retryCount: int
    const maxRetries: int

    ghost predicate Valid()
      reads this, banks, receiveBuffer
    {
      State().WellFormed()
    }

    ghost function State(): Context
      reads this, banks, receiveBuffer
    {
      Context(deviceId, banks[..], activeBank, currentVersion, bytesReceived, totalSize, updateState, receiveBuffer[..],
              currentManifest, manifestVerified, retryCount, maxRetries)
    }

    /** Takes as many bytes of the identifier as fit; the rest of the field is zero. */
    constructor (devId: seq<byte>, idLen: int)
      requires 0 <= idLen && (if idLen < DEV_ID_SIZE then idLen else DEV_ID_SIZE) <= |devId|
      ensures Valid() && fresh(banks) && fresh(receiveBuffer)
      ensures State() == Initial(deviceId)
      ensures forall i :: 0 <= i < DEV_ID_SIZE ==> deviceId[i] == if i < idLen then devId[i] else 0
    {
      var cplen := if idLen < DEV_ID_SIZE then idLen else DEV_ID_SIZE;
      var id: DeviceId := seq(DEV_ID_SIZE, i => if 0 <= i < cplen then devId[i] else 0);
      deviceId := id;
      currentVersion, activeBank, updateState, maxRetries := 1, 0, IDLE, 3;
      bytesReceived, totalSize, manifestVerified, retryCount := 0, 0, false, 0;
      currentManifest := BLANK_MANIFEST;
      receiveBuffer := new byte[MAX_PAYLOAD](i => 0);
      banks := new FirmwareBank[2](i =>
        if i == 0 then FirmwareBank(0x0800_0000, FLASH_BANK_SIZE, 1, true, true, NO_HASH)
        else FirmwareBank(0x0801_0000, FLASH_BANK_SIZE, 0, false, false, NO_HASH));
      new;
      assert banks[..] == Initial(id).banks;
      assert receiveBuffer[..] == Initial(id).receiveBuffer;
    }

    method VerifyManifest(m: Manifest) returns (ok: bool)
      ensures ok == ManifestVerified(State(), m)
    {
      if m.fwVersion <= currentVersion { return false; }
      if m.fwSize == 0 || m.fwSize > MAX_PAYLOAD { return false; }
      if m.deviceId != deviceId { return false; }
      if m.minBootloaderVer > 1 { return false; }
      return m.fwHash != NO_HASH;
    }

    method BeginUpdate(m: Manifest) returns (ok: bool)
      requires Valid()
      modifies this, receiveBuffer
      ensures Valid() && Outcome(State(), ok) == AfterBegin(old(State()), m)
    {
      if updateState != IDLE { return false; }
      ok := VerifyManifest(m);
      if !ok { return; }
      currentManifest, updateState, bytesReceived := m, DOWNLOADING, 0;
      totalSize, manifestVerified, retryCount := m.fwSize, true, 0;
      forall i | 0 <= i < receiveBuffer.Length { receiveBuffer[i] := 0; }
      assert receiveBuffer[..] == AfterBegin(old(State()), m).context.receiveBuffer;
    }

    method ReceiveChunk(chunk: seq<byte>, len: int) returns (ok: bool)
      requires Valid() && Receive(chunk, len).Sound()
      modifies this, receiveBuffer
      ensures Valid() && Outcome(State(), ok) == AfterReceive(old(State()), chunk, len)
    {
      if updateState != DOWNLOADING { return false; }
      if WrappedSum(bytesReceived, len) > MAX_PAYLOAD {
        updateState := FAILED;
        return false;
      }
      if len <= 0 || len > MAX_CHUNK { return false; }
      forall i | 0 <= i < len { receiveBuffer[bytesReceived + i] := chunk[i]; }
      bytesReceived := bytesReceived + len;
      if bytesReceived >= totalSize { updateState := VERIFYING; }
      assert receiveBuffer[..] == AfterReceive(old(State()), chunk, len).context.receiveBuffer;
      return true;
    }

    method HashOf(bytes: array<byte>, n: nat) returns (h: uint32)
      requires n <= bytes.Length
      ensures h == PolyHash(bytes[..n])
    {
      h := 0;
      for i := 0 to n
        invariant h == PolyHash(bytes[..i])
      {
        assert bytes[..i + 1][..i] == bytes[..i];
        h := HashStep(h, bytes[i]);
      }
    }

    method VerifyUpdate() returns (ok: bool)
      requires Valid()
      modifies this, banks
      ensures Valid() && Outcome(State(), ok) == AfterVerify(old(State()))
    {
      if updateState != VERIFYING { return false; }
      if bytesReceived != totalSize {
        updateState := FAILED;
        return false;
      }
      var computedHash := HashOf(receiveBuffer, bytesReceived);
      var manifestHash := 0;
      for i := 0 to FW_HASH_SIZE
        invariant manifestHash == PolyHash(currentManifest.fwHash[..i])
      {
        assert currentManifest.fwHash[..i + 1][..i] == currentManifest.fwHash[..i];
        manifestHash := HashStep(manifestHash, currentManifest.fwHash[i]);
      }
      assert currentManifest.fwHash[..FW_HASH_SIZE] == currentManifest.fwHash;
      if computedHash != manifestHash {
        updateState := FAILED;
        return false;
      }
      var target := 1 - activeBank;
      banks[target] := banks[target].(version := currentManifest.fwVersion, fwHash := currentManifest.fwHash,
                                      valid := true, active := false);
      updateState := APPLYING;
      return true;
    }

    method CommitUpdate() returns (ok: bool)
      requires Valid()
      modifies this, banks
      ensures Valid() && Outcome(State(), ok) == AfterCommit(old(State()))
    {
      if updateState != APPLYING { return false; }
      var oldActive, newActive := activeBank, 1 - activeBank;
      banks[oldActive] := banks[oldActive].(active := false);
      banks[newActive] := banks[newActive].(active := true);
      activeBank := newActive;
      currentVersion := banks[newActive].version;
      updateState := COMMITTED;
      return true;
    }

    method RollbackUpdate() returns (ok: bool)
      requires Valid()
      modifies this, banks
      ensures Valid() && Outcome(State(), ok) == AfterRollback(old(State()))
    {
      if updateState == IDLE || updateState == COMMITTED { return false; }
      banks[1 - activeBank] := ERASED_BANK;
      updateState, bytesReceived, manifestVerified := IDLE, 0, false;
      return true;
    }
  }
}
