/** The identity a store keeps: its id, its peer id and an epoch counted up at
    every open, written by separate puts of which any may fail. */
module Identity {
  import opened Options
  import opened ByteOrder
  import opened Utf8
  import opened Numbers

  const U64_LIMIT := 0x1_0000_0000_0000_0000
  const PEER_LIMIT := 0x8000_0000_0000_0000

  // ── Records ───────────────────────────────────────────────────────────────

  function LittleEndian(n: nat, width: nat): (s: Bytes)
    ensures |s| == width
  {
    if width == 0 then [] else [n % 256] + LittleEndian(n / 256, width - 1)
  }

  function FromLittleEndian(s: Bytes): nat {
    if s == [] then 0 else s[0] + 256 * FromLittleEndian(s[1..])
  }

  lemma {:induction false} LittleEndianRoundTrip(n: nat, width: nat)
    requires n < Pow256(width)
    ensures FromLittleEndian(LittleEndian(n, width)) == n
  {
    if width != 0 {
      LittleEndianRoundTrip(n / 256, width - 1);
      assert LittleEndian(n, width)[1..] == LittleEndian(n / 256, width - 1);
    }
  }

  lemma {:induction false} LittleEndianAt(n: nat, width: nat, i: nat)
    requires i < width
    ensures LittleEndian(n, width)[i] == n / Pow256(i) % 256
    decreases i
  {
    if i == 0 {
      assert Pow256(0) == 1;
    } else {
      LittleEndianAt(n / 256, width - 1, i - 1);
      DivideTwice(n, Pow256(i - 1));
    }
  }

  lemma DivideTwice(n: nat, p: nat)
    requires p > 0
    ensures n / 256 / p == n / (256 * p)
  {
    var q := n / 256 / p;
    var a, r := n / 256, n % 256;
    assert a == q * p + a % p;
    assert n == 256 * (q * p + a % p) + r == q * (256 * p) + (256 * (a % p) + r);
    assert 256 * (a % p) + r < 256 * p;
    QuotientIs(n, 256 * p, q, 256 * (a % p) + r);
  }

  lemma QuotientIs(n: nat, d: nat, q: nat, r: nat)
    requires r < d && n == q * d + r
    ensures n / d == q
  {
    var k := n / d;
    assert n == k * d + n % d;
    assert (k + 1) * d == k * d + d && (q + 1) * d == q * d + d;
    if k < q { MulAtMost(k + 1, q, d); }
    if k > q { MulAtMost(q + 1, k, d); }
  }

  /** A record is eight bytes, the least significant first, and reads back. */
  lemma RecordReadsBack(n: nat)
    requires n < U64_LIMIT
    ensures |LittleEndian(n, 8)| == 8 && FromLittleEndian(LittleEndian(n, 8)) == n
    ensures forall i :: 0 <= i < 8 ==> LittleEndian(n, 8)[i] == n / Pow256(i) % 256
  {
    forall i | 0 <= i < 8 ensures LittleEndian(n, 8)[i] == n / Pow256(i) % 256 { LittleEndianAt(n, 8, i); }
    assert Pow256(8) == U64_LIMIT by {
      assert Pow256(2) == 0x1_0000 && Pow256(4) == 0x1_0000_0000 && Pow256(6) == 0x1_0000_0000_0000;
    }
    LittleEndianRoundTrip(n, 8);
  }

  predicate IsPeerId(id: nat) {
    0 < id < PEER_LIMIT
  }

  type PeerId = id: nat | IsPeerId(id) witness 1

  /** The stored metadata cells. */
  datatype Cells = Cells(liteId: Option<Bytes>, peerId: Option<Bytes>, epoch: Option<Bytes>)

  datatype Field = LiteIdField | PeerIdField | EpochField

  function With(cells: Cells, field: Field, value: Bytes): Cells {
    match field
    case LiteIdField => cells.(liteId := Some(value))
    case PeerIdField => cells.(peerId := Some(value))
    case EpochField => cells.(epoch := Some(value))
  }

  /** How a put ends: done and acknowledged, lost, or stored although the call
      failed or the process died first. */
  datatype Fate = Done | Lost | Landed

  function AfterPut(cells: Cells, field: Field, value: Bytes, fate: Fate): Cells {
    if fate.Lost? then cells else With(cells, field, value)
  }

  /** A stored peer id that can be used; anything else counts as absent. */
  function StoredPeer(cells: Cells): Option<PeerId> {
    match cells.peerId
    case Some(b) => if |b| == 8 && IsPeerId(FromLittleEndian(b)) then Some(FromLittleEndian(b)) else None
    case None => None
  }

  /** The last stored epoch, or 0 when there is no readable one. */
  function StoredEpoch(cells: Cells): nat {
    match cells.epoch
    case Some(b) => if |b| == 8 then FromLittleEndian(b) else 0
    case None => 0
  }

  // ── Minting ───────────────────────────────────────────────────────────────

  function Xor8(a: byte, b: byte): byte {
    ((a as bv8) ^ (b as bv8)) as byte
  }

  /** One round of the hash, in wrapping 64-bit arithmetic. */
  function Round(hash: nat, b: byte): nat {
    ((hash / 256 * 256 + Xor8(hash % 256, b)) * 0x1000_0000_01b3) % U64_LIMIT
  }

  function HashOf(bytes: Bytes): nat {
    if bytes == [] then 0xcbf2_9ce4_8422_2325 else Round(HashOf(bytes[..|bytes| - 1]), bytes[|bytes| - 1])
  }

  lemma RoundIs(hash: nat, b: byte, mixed: nat, whole: nat, next: nat)
    requires hash / 256 * 256 + Xor8(hash % 256, b) == mixed
    requires mixed * 0x1000000001b3 == whole * U64_LIMIT + next && next < U64_LIMIT
    ensures Round(hash, b) == next
  {
    hide Xor8;
    QuotientIs(mixed * 0x1000000001b3, U64_LIMIT, whole, next);
  }

  /** The hash of the texts "a" and "ab", as a check on its constants. */
  lemma HashVectors()
    ensures HashOf([]) == 0xcbf29ce484222325
    ensures HashOf([0x61]) == 0xaf74d84c8601ec8c && HashOf([0x61, 0x62]) == 0x425a6a07b545986a
  {
    hide Round;
    assert [0x61, 0x62][..1] == [0x61] && [0x61][..0] == [];
    assert Xor8(0x25, 0x61) == 0x44 && Xor8(0x8c, 0x62) == 0xee;
    hide Xor8;
    RoundIs(0xcbf29ce484222325, 0x61, 0xcbf29ce484222344, 0xcbf29ce499c, 0xaf74d84c8601ec8c);
    RoundIs(0xaf74d84c8601ec8c, 0x62, 0xaf74d84c8601ecee, 0xaf74d84c98a, 0x425a6a07b545986a);
    assert HashOf([0x61]) == Round(HashOf([0x61][..0]), 0x61);
    assert HashOf([0x61, 0x62]) == Round(HashOf([0x61, 0x62][..1]), 0x62);
  }

  /** A fresh peer id drawn from a fresh UUID: never the unset id, never one with
      the reserved bit. */
  method MintPeerId(uuid: Text) returns (id: nat)
    ensures IsPeerId(id)
    ensures id == if HashOf(uuid) % PEER_LIMIT == 0 then 1 else HashOf(uuid) % PEER_LIMIT
  {
    hide Round;
    var hash: nat := 0xcbf2_9ce4_8422_2325;
    for i := 0 to |uuid|
      invariant hash == HashOf(uuid[..i])
    {
      assert uuid[..i + 1][..i] == uuid[..i];
      hash := Round(hash, uuid[i]);
    }
    assert uuid[..|uuid|] == uuid;
    id := hash % PEER_LIMIT;
    if id == 0 {
      id := 1;
    }
  }

  // ── Operations ────────────────────────────────────────────────────────────

  /** An identity in memory. */
  datatype Known = Known(liteId: Text, epoch: nat, peerId: PeerId)

  /** Storage after an open, and the identity if it succeeded. */
  datatype Opening = Opening(cells: Cells, known: Option<Known>)

  function OpenEpoch(cells: Cells, id: Text, peer: PeerId, fate: Fate): Opening {
    var epoch := StoredEpoch(cells) + 1;
    Opening(AfterPut(cells, EpochField, LittleEndian(epoch, 8), fate), if fate.Done? then Some(Known(id, epoch, peer)) else None)
  }

  function OpenPeer(cells: Cells, id: Text, minted: PeerId, fates: (Fate, Fate, Fate)): Opening {
    match StoredPeer(cells)
    case Some(peer) => OpenEpoch(cells, id, peer, fates.2)
    case None =>
      var after := AfterPut(cells, PeerIdField, LittleEndian(minted, 8), fates.1);
      if fates.1.Done? then OpenEpoch(after, id, minted, fates.2) else Opening(after, None)
  }

  /** Open a store; `uuid` and `minted` are used where it holds no id or no
      usable peer id. An id that is not text is replaced in memory only. */
  function Open(cells: Cells, uuid: Text, minted: PeerId, fates: (Fate, Fate, Fate)): Opening {
    match cells.liteId
    case Some(b) => OpenPeer(cells, if Valid(b) then b else uuid, minted, fates)
    case None =>
      var after := AfterPut(cells, LiteIdField, uuid, fates.0);
      if fates.0.Done? then OpenPeer(after, uuid, minted, fates) else Opening(after, None)
  }

  function Rotated(cells: Cells, known: Known, next: PeerId, fate: Fate): (Cells, Known) {
    (AfterPut(cells, PeerIdField, LittleEndian(next, 8), fate), if fate.Done? then known.(peerId := next) else known)
  }

  /** A new identity: the id and the epoch change in memory before any put. */
  function Regenerated(cells: Cells, known: Known, uuid: Text, next: PeerId, fates: (Fate, Fate, Fate)): (Cells, Known) {
    var renamed := known.(liteId := uuid, epoch := 1);
    var first := AfterPut(cells, LiteIdField, uuid, fates.0);
    if !fates.0.Done? then (first, renamed)
    else
      var second := AfterPut(first, EpochField, LittleEndian(1, 8), fates.1);
      if !fates.1.Done? then (second, renamed) else Rotated(second, renamed, next, fates.2)
  }

  // ── The operations as they run ────────────────────────────────────────────

  class MetaStore {
    var cells: Cells

    constructor (cells: Cells)
      ensures this.cells == cells
    {
      this.cells := cells;
    }

    method Put(field: Field, value: Bytes, fate: Fate) returns (ok: bool)
      modifies this
      ensures ok == fate.Done? && cells == AfterPut(old(cells), field, value, fate)
    {
      if !fate.Lost? {
        cells := With(cells, field, value);
      }
      ok := fate.Done?;
    }
  }

  class LiteIdentity {
    var liteId: Text
    var epoch: nat
    var peerId: PeerId

    function Now(): Known
      reads this
    {
      Known(liteId, epoch, peerId)
    }

    constructor (known: Known)
      ensures Now() == known
    {
      liteId, epoch, peerId := known.liteId, known.epoch, known.peerId;
    }

    static method LoadOrCreate(store: MetaStore, uuid: Text, minted: PeerId, fates: (Fate, Fate, Fate)) returns (loaded: LiteIdentity?)
      modifies store
      ensures store.cells == Open(old(store.cells), uuid, minted, fates).cells
      ensures loaded == null <==> Open(old(store.cells), uuid, minted, fates).known == None
      ensures loaded != null ==> fresh(loaded) && Open(old(store.cells), uuid, minted, fates).known == Some(loaded.Now())
    {
      hide LittleEndian;
      hide FromLittleEndian;
      hide Valid;
      loaded := null;
      var id := uuid;
      match store.cells.liteId {
        case Some(b) =>
          if Valid(b) {
            id := b;
          }
        case None =>
          var stored := store.Put(LiteIdField, uuid, fates.0);
          if !stored {
            return;
          }
      }
      var peer := minted;
      match StoredPeer(store.cells) {
        case Some(p) => peer := p;
        case None =>
          var stored := store.Put(PeerIdField, LittleEndian(minted, 8), fates.1);
          if !stored {
            return;
          }
      }
      var epoch := StoredEpoch(store.cells) + 1;
      var stored := store.Put(EpochField, LittleEndian(epoch, 8), fates.2);
      if stored {
        loaded := new LiteIdentity(Known(id, epoch, peer));
      }
    }

    /** Draw ids until one differs from the current, and store it. `drawn` are
        the ids the generator would give. */
    method RotatePeerId(store: MetaStore, drawn: seq<PeerId>, fate: Fate) returns (ok: bool)
      requires HasOther(drawn, peerId)
      modifies this, store
      ensures ok == fate.Done? && FirstOther(drawn, old(peerId)) != old(peerId)
      ensures (store.cells, Now()) == Rotated(old(store.cells), old(Now()), FirstOther(drawn, old(peerId)), fate)
    {
      hide LittleEndian;
      var i := 0;
      assert drawn[0..] == drawn;
      while drawn[i] == peerId
        invariant 0 <= i < |drawn| && HasOther(drawn[i..], peerId)
        invariant FirstOther(drawn[i..], peerId) == FirstOther(drawn, peerId)
        decreases |drawn| - i
      {
        assert drawn[i..][1..] == drawn[i + 1..];
        i := i + 1;
      }
      var next := drawn[i];
      ok := store.Put(PeerIdField, LittleEndian(next, 8), fate);
      if ok {
        peerId := next;
      }
    }

    method Regenerate(store: MetaStore, uuid: Text, drawn: seq<PeerId>, fates: (Fate, Fate, Fate)) returns (ok: bool)
      requires HasOther(drawn, peerId)
      modifies this, store
      ensures ok <==> fates.0.Done? && fates.1.Done? && fates.2.Done?
      ensures (store.cells, Now())
           == Regenerated(old(store.cells), old(Now()), uuid, FirstOther(drawn, old(peerId)), fates)
    {
      hide LittleEndian;
      hide FirstOther;
      liteId, epoch := uuid, 1;
      ok := store.Put(LiteIdField, liteId, fates.0);
      if !ok {
        return;
      }
      ok := store.Put(EpochField, LittleEndian(epoch, 8), fates.1);
      if !ok {
        return;
      }
      ok := RotatePeerId(store, drawn, fates.2);
    }
  }

  predicate HasOther(drawn: seq<PeerId>, refused: PeerId) {
    drawn != [] && (drawn[0] != refused || HasOther(drawn[1..], refused))
  }

  /** The first id drawn that is not `refused`. */
  function FirstOther(drawn: seq<PeerId>, refused: PeerId): PeerId
    requires HasOther(drawn, refused)
  {
    if drawn[0] != refused then drawn[0] else FirstOther(drawn[1..], refused)
  }

  /** It is drawn, it differs, and all drawn before it are the refused one. */
  lemma {:induction false} FirstOtherIs(drawn: seq<PeerId>, refused: PeerId)
    requires HasOther(drawn, refused)
    ensures FirstOther(drawn, refused) != refused
    ensures exists i :: 0 <= i < |drawn| && drawn[i] == FirstOther(drawn, refused) && forall j :: 0 <= j < i ==> drawn[j] == refused
    decreases |drawn|
  {
    if drawn[0] == refused {
      FirstOtherIs(drawn[1..], refused);
      var i :| 0 <= i < |drawn[1..]| && drawn[1..][i] == FirstOther(drawn[1..], refused)
        && forall j :: 0 <= j < i ==> drawn[1..][j] == refused;
      assert drawn[i + 1] == FirstOther(drawn, refused);
      forall j | 0 <= j < i + 1 ensures drawn[j] == refused {
        if j > 0 { assert drawn[j] == drawn[1..][j - 1]; }
      }
    }
  }

  // ── Runs ──────────────────────────────────────────────────────────────────

  /** Storage, the identity in memory, every (id, epoch) an identity in memory
      has carried, in order, and every id in use so far. */
  datatype System = System(cells: Cells, known: Option<Known>, handed: seq<(Text, nat)>, used: set<Text>)

  datatype Step =
    | OpenStep(uuid: Text, minted: PeerId, fates: (Fate, Fate, Fate))
    | RotateStep(next: PeerId, fate: Fate)
    | RegenerateStep(uuid: Text, next: PeerId, fates: (Fate, Fate, Fate))
    | Crash

  /** UUIDs are new when made, rotation draws another id, and the epoch has not
      run out. */
  ghost predicate Enabled(sys: System, step: Step) {
    match step
    case OpenStep(uuid, _, _) => uuid !in sys.used && StoredEpoch(sys.cells) + 1 < U64_LIMIT
    case RotateStep(next, _) => sys.known.Some? && next != sys.known.value.peerId
    case RegenerateStep(uuid, next, _) => sys.known.Some? && uuid !in sys.used && next != sys.known.value.peerId
    case Crash => true
  }

  ghost function Next(sys: System, step: Step): System
    requires Enabled(sys, step)
  {
    match step
    case OpenStep(uuid, minted, fates) =>
      var o := Open(sys.cells, uuid, minted, fates);
      System(o.cells, o.known,
             if o.known.Some? then sys.handed + [(o.known.value.liteId, o.known.value.epoch)] else sys.handed,
             sys.used + {uuid})
    case RotateStep(next, fate) =>
      var r := Rotated(sys.cells, sys.known.value, next, fate);
      sys.(cells := r.0, known := Some(r.1))
    case RegenerateStep(uuid, next, fates) =>
      var r := Regenerated(sys.cells, sys.known.value, uuid, next, fates);
      System(r.0, Some(r.1), sys.handed + [(uuid, 1)], sys.used + {uuid})
    case Crash => sys.(known := None)
  }

  ghost predicate Legal(sys: System, steps: seq<Step>)
    decreases |steps|
  {
    steps == [] || (Enabled(sys, steps[0]) && Legal(Next(sys, steps[0]), steps[1..]))
  }

  ghost function End(sys: System, steps: seq<Step>): System
    requires Legal(sys, steps)
    decreases |steps|
  {
    if steps == [] then sys else End(Next(sys, steps[0]), steps[1..])
  }

  /** A store as found, whatever its cells hold, before any open. */
  function Found(cells: Cells): System {
    System(cells, None, [], if cells.liteId.Some? && Valid(cells.liteId.value) then {cells.liteId.value} else {})
  }

  /** Per id, later epochs are larger. */
  ghost predicate Increasing(handed: seq<(Text, nat)>) {
    forall i, j :: 0 <= i < j < |handed| && handed[i].0 == handed[j].0 ==> handed[i].1 < handed[j].1
  }

  /** Epochs carried under the stored id are at most the stored one. */
  ghost predicate Covered(cells: Cells, handed: seq<(Text, nat)>) {
    forall i :: 0 <= i < |handed| && cells.liteId == Some(handed[i].0) ==> handed[i].1 <= StoredEpoch(cells)
  }

  ghost predicate Inv(sys: System) {
    && Increasing(sys.handed) && Covered(sys.cells, sys.handed)
    && (forall i :: 0 <= i < |sys.handed| ==> sys.handed[i].0 in sys.used)
    && (sys.cells.liteId.Some? && Valid(sys.cells.liteId.value) ==> sys.cells.liteId.value in sys.used)
    && (sys.known.Some? ==> StoredEpoch(sys.cells) >= 1)
  }

  lemma PutReads(cells: Cells, field: Field, value: Bytes, fate: Fate)
    ensures field != EpochField ==> StoredEpoch(AfterPut(cells, field, value, fate)) == StoredEpoch(cells)
    ensures field != PeerIdField ==> StoredPeer(AfterPut(cells, field, value, fate)) == StoredPeer(cells)
  {
  }

  lemma EpochReads(cells: Cells, epoch: nat, fate: Fate)
    requires epoch < U64_LIMIT
    ensures StoredEpoch(AfterPut(cells, EpochField, LittleEndian(epoch, 8), fate)) == if fate.Lost? then StoredEpoch(cells) else epoch
  {
    RecordReadsBack(epoch);
  }

  lemma PeerReads(cells: Cells, peer: PeerId, fate: Fate)
    ensures StoredPeer(AfterPut(cells, PeerIdField, LittleEndian(peer, 8), fate)) == if fate.Lost? then StoredPeer(cells) else Some(peer)
  {
    assert IsPeerId(peer);
    RecordReadsBack(peer);
  }

  /** What an open leaves, whichever puts failed: the id it found or the new one,
      an epoch no smaller, and on success the next epoch, stored. */
  lemma OpenLeaves(cells: Cells, uuid: Text, minted: PeerId, fates: (Fate, Fate, Fate))
    requires StoredEpoch(cells) + 1 < U64_LIMIT
    ensures var o := Open(cells, uuid, minted, fates);
      && (o.cells.liteId == cells.liteId || (cells.liteId == None && o.cells.liteId == Some(uuid)))
      && StoredEpoch(cells) <= StoredEpoch(o.cells) <= StoredEpoch(cells) + 1
      && (o.known.Some? ==>
            && o.known.value.epoch == StoredEpoch(cells) + 1 == StoredEpoch(o.cells)
            && (o.known.value.liteId == uuid || cells.liteId == Some(o.known.value.liteId)))
  {
    hide StoredEpoch;
    hide LittleEndian;
    var epoch := StoredEpoch(cells) + 1;
    var named := if cells.liteId == None then AfterPut(cells, LiteIdField, uuid, fates.0) else cells;
    PutReads(cells, LiteIdField, uuid, fates.0);
    var peered := AfterPut(named, PeerIdField, LittleEndian(minted, 8), fates.1);
    PutReads(named, PeerIdField, LittleEndian(minted, 8), fates.1);
    EpochReads(named, epoch, fates.2);
    EpochReads(peered, epoch, fates.2);
  }

  lemma OpenKeepsInv(sys: System, step: Step)
    requires Inv(sys) && step.OpenStep? && Enabled(sys, step)
    ensures Inv(Next(sys, step))
  {
    OpenLeaves(sys.cells, step.uuid, step.minted, step.fates);
    hide Open;
    hide StoredEpoch;
    hide Valid;
  }

  lemma RegenerateLeaves(cells: Cells, known: Known, uuid: Text, next: PeerId, fates: (Fate, Fate, Fate))
    requires StoredEpoch(cells) >= 1
    ensures var r := Regenerated(cells, known, uuid, next, fates);
      && (r.0.liteId == Some(uuid) || r.0 == cells)
      && StoredEpoch(r.0) >= 1
  {
    hide StoredEpoch;
    hide LittleEndian;
    var first := AfterPut(cells, LiteIdField, uuid, fates.0);
    PutReads(cells, LiteIdField, uuid, fates.0);
    EpochReads(first, 1, fates.1);
    var second := AfterPut(first, EpochField, LittleEndian(1, 8), fates.1);
    PutReads(second, PeerIdField, LittleEndian(next, 8), fates.2);
  }

  lemma RegenerateKeepsInv(sys: System, step: Step)
    requires Inv(sys) && step.RegenerateStep? && Enabled(sys, step)
    ensures Inv(Next(sys, step))
  {
    RegenerateLeaves(sys.cells, sys.known.value, step.uuid, step.next, step.fates);
    hide Regenerated;
    hide StoredEpoch;
    hide Valid;
  }

  lemma StepKeepsInv(sys: System, step: Step)
    requires Inv(sys) && Enabled(sys, step)
    ensures Inv(Next(sys, step))
  {
    match step
    case OpenStep(_, _, _) => OpenKeepsInv(sys, step);
    case RotateStep(next, fate) => PutReads(sys.cells, PeerIdField, LittleEndian(next, 8), fate);
    case RegenerateStep(_, _, _) => RegenerateKeepsInv(sys, step);
    case Crash =>
  }

  lemma {:induction false} RunKeepsInv(sys: System, steps: seq<Step>)
    requires Inv(sys) && Legal(sys, steps)
    ensures Inv(End(sys, steps))
    decreases |steps|
  {
    hide Inv;
    hide Enabled;
    hide Next;
    if steps != [] {
      StepKeepsInv(sys, steps[0]);
      RunKeepsInv(Next(sys, steps[0]), steps[1..]);
    }
  }

  /** Whatever the store held and whichever puts fail or crash, epochs carried
      under one id strictly increase. */
  lemma EpochsIncrease(cells: Cells, steps: seq<Step>)
    requires Legal(Found(cells), steps)
    ensures Increasing(End(Found(cells), steps).handed)
  {
    RunKeepsInv(Found(cells), steps);
  }

  // ── The peer id ───────────────────────────────────────────────────────────

  ghost predicate PlainReopens(steps: seq<Step>) {
    forall i :: 0 <= i < |steps| ==> steps[i].OpenStep? || steps[i].Crash?
  }

  lemma OpenKeepsPeer(cells: Cells, uuid: Text, minted: PeerId, fates: (Fate, Fate, Fate))
    requires StoredPeer(cells).Some?
    ensures var o := Open(cells, uuid, minted, fates);
      StoredPeer(o.cells) == StoredPeer(cells) && (o.known.Some? ==> o.known.value.peerId == StoredPeer(cells).value)
  {
    hide StoredPeer;
    hide StoredEpoch;
    hide LittleEndian;
    var named := if cells.liteId == None then AfterPut(cells, LiteIdField, uuid, fates.0) else cells;
    PutReads(cells, LiteIdField, uuid, fates.0);
    PutReads(named, EpochField, LittleEndian(StoredEpoch(named) + 1, 8), fates.2);
  }

  /** Through any number of reopens, failing anywhere, a stored peer id stays and
      every open that succeeds loads it. */
  lemma {:induction false} ReopensKeepPeer(sys: System, steps: seq<Step>, peer: PeerId)
    requires Legal(sys, steps) && PlainReopens(steps) && StoredPeer(sys.cells) == Some(peer)
    requires sys.known.Some? ==> sys.known.value.peerId == peer
    ensures StoredPeer(End(sys, steps).cells) == Some(peer)
    ensures End(sys, steps).known.Some? ==> End(sys, steps).known.value.peerId == peer
    decreases |steps|
  {
    if steps != [] {
      if steps[0].OpenStep? { OpenKeepsPeer(sys.cells, steps[0].uuid, steps[0].minted, steps[0].fates); }
      hide Open;
      hide StoredPeer;
      hide Enabled;
      ReopensKeepPeer(Next(sys, steps[0]), steps[1..], peer);
    }
  }

  /** Once an open has succeeded its peer id is the stored one. */
  lemma OpenStoresPeer(cells: Cells, uuid: Text, minted: PeerId, fates: (Fate, Fate, Fate))
    requires Open(cells, uuid, minted, fates).known.Some?
    ensures StoredPeer(Open(cells, uuid, minted, fates).cells) == Some(Open(cells, uuid, minted, fates).known.value.peerId)
  {
    hide StoredPeer;
    hide StoredEpoch;
    hide LittleEndian;
    var named := if cells.liteId == None then AfterPut(cells, LiteIdField, uuid, fates.0) else cells;
    PutReads(cells, LiteIdField, uuid, fates.0);
    PeerReads(named, minted, fates.1);
    var peered := AfterPut(named, PeerIdField, LittleEndian(minted, 8), fates.1);
    PutReads(named, EpochField, LittleEndian(StoredEpoch(named) + 1, 8), fates.2);
    PutReads(peered, EpochField, LittleEndian(StoredEpoch(peered) + 1, 8), fates.2);
  }

  /** What an open comes up with: the stored id and peer id where they can be
      used, otherwise the ones made for it, stored if nothing was there; and it
      succeeds exactly when every put it had to make did. */
  lemma OpenUses(cells: Cells, uuid: Text, minted: PeerId, fates: (Fate, Fate, Fate))
    ensures var o := Open(cells, uuid, minted, fates);
      && (o.known.Some? <==> (cells.liteId.None? ==> fates.0.Done?) && (StoredPeer(cells).None? ==> fates.1.Done?) && fates.2.Done?)
      && (o.known.Some? ==>
            && (StoredPeer(cells).None? ==> o.known.value.peerId == minted && StoredPeer(o.cells) == Some(minted))
            && (StoredPeer(cells).Some? ==> o.known.value.peerId == StoredPeer(cells).value && o.cells.peerId == cells.peerId)
            && (cells.liteId.None? ==> o.known.value.liteId == uuid && o.cells.liteId == Some(uuid))
            && (cells.liteId.Some? ==> o.cells.liteId == cells.liteId)
            && (cells.liteId.Some? ==> o.known.value.liteId == if Valid(cells.liteId.value) then cells.liteId.value else uuid))
  {
    hide StoredEpoch;
    hide LittleEndian;
    hide FromLittleEndian;
    hide Valid;
    var named := if cells.liteId == None then AfterPut(cells, LiteIdField, uuid, fates.0) else cells;
    PutReads(cells, LiteIdField, uuid, fates.0);
    PeerReads(named, minted, fates.1);
    var peered := AfterPut(named, PeerIdField, LittleEndian(minted, 8), fates.1);
    PutReads(peered, EpochField, LittleEndian(StoredEpoch(peered) + 1, 8), fates.2);
  }

  /** The peer id of a successful open is loaded by every plain reopen after it. */
  lemma PeerIsStable(sys: System, first: Step, steps: seq<Step>)
    requires first.OpenStep? && Legal(sys, [first] + steps) && PlainReopens(steps) && Next(sys, first).known.Some?
    ensures var later := End(sys, [first] + steps);
      later.known.Some? ==> later.known.value.peerId == Next(sys, first).known.value.peerId
  {
    assert ([first] + steps)[1..] == steps;
    OpenStoresPeer(sys.cells, first.uuid, first.minted, first.fates);
    hide Open;
    hide StoredPeer;
    ReopensKeepPeer(Next(sys, first), steps, Next(sys, first).known.value.peerId);
  }

  /** Once a rotation returns, every later plain reopen loads the new peer id and
      not the refused one. */
  lemma RotationSticks(sys: System, next: PeerId, steps: seq<Step>)
    requires sys.known.Some? && Legal(sys, [RotateStep(next, Done)] + steps) && PlainReopens(steps)
    ensures var later := End(sys, [RotateStep(next, Done)] + steps);
      later.known.Some? ==> later.known.value.peerId == next != sys.known.value.peerId
  {
    assert ([RotateStep(next, Done)] + steps)[1..] == steps;
    PeerReads(sys.cells, next, Done);
    hide StoredPeer;
    ReopensKeepPeer(Next(sys, RotateStep(next, Done)), steps, next);
  }

  // ── What storage says ─────────────────────────────────────────────────────

  /** A peer id is taken from storage exactly when it is eight bytes spelling a
      number above 0 without the top bit; anything else counts as none. */
  lemma StoredPeerIs(cells: Cells, peer: nat)
    ensures StoredPeer(cells) == Some(peer)
       <==> 0 < peer < 0x8000_0000_0000_0000 && cells.peerId == Some(LittleEndian(peer, 8))
  {
    if 0 < peer < 0x8000_0000_0000_0000 { RecordReadsBack(peer); }
    if cells.peerId.Some? && |cells.peerId.value| == 8 { RecordIsSpelled(cells.peerId.value); }
  }

  lemma {:induction false} BytesAreSpelled(s: Bytes)
    ensures LittleEndian(FromLittleEndian(s), |s|) == s && FromLittleEndian(s) < Pow256(|s|)
    decreases |s|
  {
    if s != [] { BytesAreSpelled(s[1..]); }
  }

  lemma RecordIsSpelled(s: Bytes)
    requires |s| == 8
    ensures LittleEndian(FromLittleEndian(s), 8) == s
  {
    BytesAreSpelled(s);
  }

  /** The first epoch of a store without a readable one is 1, and otherwise the
      next after the stored. */
  lemma FirstEpoch(cells: Cells, uuid: Text, minted: PeerId, fates: (Fate, Fate, Fate), n: nat)
    requires Open(cells, uuid, minted, fates).known.Some? && n < U64_LIMIT - 1
    ensures var epoch := Open(cells, uuid, minted, fates).known.value.epoch;
      && (cells.epoch.None? || |cells.epoch.value| != 8 ==> epoch == 1)
      && (cells.epoch == Some(LittleEndian(n, 8)) ==> epoch == n + 1)
  {
    RecordReadsBack(n);
    hide LittleEndian;
    hide FromLittleEndian;
    hide Valid;
  }

  /** A rotation: in memory exactly when it returned, in storage whenever the put
      was stored. */
  lemma RotationSeen(cells: Cells, known: Known, next: PeerId, fate: Fate)
    ensures var r := Rotated(cells, known, next, fate);
      && r.1 == (if fate.Done? then Known(known.liteId, known.epoch, next) else known)
      && r.0.liteId == cells.liteId && r.0.epoch == cells.epoch
      && StoredPeer(r.0) == if fate.Lost? then StoredPeer(cells) else Some(next)
  {
    PeerReads(cells, next, fate);
  }

  /** A regeneration that returned: a new id, the first epoch and a new peer id,
      in memory and in storage. Cut earlier, memory has the id and the epoch, and
      storage what was put in that order. */
  lemma RegenerationEnds(cells: Cells, known: Known, uuid: Text, next: PeerId, fates: (Fate, Fate, Fate))
    ensures var r := Regenerated(cells, known, uuid, next, fates);
      && r.1 == Known(uuid, 1, if fates == (Done, Done, Done) then next else known.peerId)
      && r.0.liteId == (if fates.0.Lost? then cells.liteId else Some(uuid))
      && StoredEpoch(r.0) == (if fates.0.Done? && !fates.1.Lost? then 1 else StoredEpoch(cells))
      && StoredPeer(r.0) == if fates.0.Done? && fates.1.Done? && !fates.2.Lost? then Some(next) else StoredPeer(cells)
  {
    hide StoredPeer;
    hide StoredEpoch;
    hide LittleEndian;
    var first := AfterPut(cells, LiteIdField, uuid, fates.0);
    var second := AfterPut(first, EpochField, LittleEndian(1, 8), fates.1);
    PutReads(cells, LiteIdField, uuid, fates.0);
    PutReads(first, EpochField, LittleEndian(1, 8), fates.1);
    EpochReads(first, 1, fates.1);
    PeerReads(second, next, fates.2);
    PutReads(second, PeerIdField, LittleEndian(next, 8), fates.2);
  }

  // ── An interrupted regeneration ───────────────────────────────────────────

  /** Which parts of a regeneration a reopen sees: the new id when its put was
      stored, the new peer id when the last put was. Between the two the store
      has a new id and the old peer id. */
  lemma RegenerationSeen(cells: Cells, known: Known, uuid: Text, next: PeerId, fates: (Fate, Fate, Fate),
                         other: Text, minted: PeerId)
    requires StoredPeer(cells) == Some(known.peerId) && cells.liteId == Some(known.liteId)
    requires next != known.peerId && uuid != known.liteId
    ensures var r := Regenerated(cells, known, uuid, next, fates);
      var o := Open(r.0, other, minted, (Done, Done, Done));
      && o.known.Some?
      && (o.known.value.liteId == uuid <==> !fates.0.Lost?)
      && (o.known.value.liteId == known.liteId <==> fates.0.Lost?)
      && (o.known.value.peerId == next <==> fates.0.Done? && fates.1.Done? && !fates.2.Lost?)
      && (o.known.value.peerId == known.peerId <==> !(fates.0.Done? && fates.1.Done? && !fates.2.Lost?))
  {
    hide StoredPeer;
    hide StoredEpoch;
    hide LittleEndian;
    var first := AfterPut(cells, LiteIdField, uuid, fates.0);
    var second := AfterPut(first, EpochField, LittleEndian(1, 8), fates.1);
    PutReads(cells, LiteIdField, uuid, fates.0);
    PutReads(first, EpochField, LittleEndian(1, 8), fates.1);
    PeerReads(second, next, fates.2);
  }
}
