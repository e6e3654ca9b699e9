/**
 * The receive/dispatch loop of the CAN bootloader (bootloader.c).
 *
 * The datagram codec, the command handlers, the CAN driver, the configuration
 * storage and the clock are collaborators whose code is not part of this model.
 * They appear as oracles: the codec and the dispatcher as function values in
 * an `Env`, the driver and the clock as the outcomes recorded in a `Poll`.
 * What is modelled is every decision the loop itself takes.
 */
module Bootloader {

  import opened Options

  type byte = bv8

  /** Bit 7 of a frame identifier marks the first frame of a datagram. */
  const START_OF_DATAGRAM_MASK: bv32 := 0x80

  const PAGE_SIZE: nat := 2048

  /** Size of the static buffer the command handlers write their response into. */
  const OUTPUT_BUF_SIZE: nat := PAGE_SIZE + 512

  /** Size of the frame buffer `return_datagram` asks the encoder to fill. */
  const FRAME_SIZE: nat := 8

  /**
   * The boot argument that keeps the bootloader from timing out. Its numeric
   * value lives in boot_arg.h, which is not part of this model; the loop only
   * compares the argument against it for equality.
   */
  const BOOT_ARG_START_BOOTLOADER_NO_TIMEOUT: int := 1

  /** A CAN frame as the driver delivers or accepts it. */
  datatype Frame = Frame(id: bv32, data: seq<byte>)

  /** The bootloader configuration; only the node ID is interpreted here. */
  datatype Config = Config(id: byte, settings: seq<byte>)

  /** One of the two redundant configuration pages: whether its integrity check passes, and what it holds. */
  datatype ConfigRegion = ConfigRegion(valid: bool, record: Config)

  /**
   * The datagram codec. Its reassembly state is determined by the bytes fed
   * since the last `can_datagram_start`, so the decoder's queries are
   * functions of that byte sequence; `encode` gives the wire bytes of a
   * datagram (destination list, data, CRC) that the encoder hands out.
   */
  datatype Codec = Codec(
    isComplete: seq<byte> -> bool,
    isValid: seq<byte> -> bool,
    destinations: seq<byte> -> seq<byte>,
    data: seq<byte> -> seq<byte>,
    encode: (seq<byte>, seq<byte>) -> seq<byte>)

  // ---------------------------------------------------------------------------
  // The command table
  // ---------------------------------------------------------------------------

  datatype Handler =
    | JumpToApplication
    | CrcRegion
    | EraseFlashPage
    | WriteFlash
    | Ping
    | ReadFlash
    | ConfigUpdate
    | ConfigWriteToFlash

  datatype CommandEntry = CommandEntry(index: int, callback: Handler)

  /** The static command table handed to the dispatcher. */
  const COMMANDS: seq<CommandEntry> := [
    CommandEntry(1, JumpToApplication),
    CommandEntry(2, CrcRegion),
    CommandEntry(3, EraseFlashPage),
    CommandEntry(4, WriteFlash),
    CommandEntry(5, Ping),
    CommandEntry(6, ReadFlash),
    CommandEntry(7, ConfigUpdate),
    CommandEntry(8, ConfigWriteToFlash)
  ]

  /** The handler a table associates with a command index: the first entry whose index matches. */
  function FindCommand(table: seq<CommandEntry>, index: int): (h: Option<Handler>)
    ensures h.Some? <==> exists k :: 0 <= k < |table| && table[k].index == index
    ensures h.Some? ==> exists k :: 0 <= k < |table| && table[k] == CommandEntry(index, h.value)
  {
    if table == [] then None
    else if table[0].index == index then Some(table[0].callback)
    else
      var h := FindCommand(table[1..], index);
      assert forall k :: 1 <= k < |table| ==> table[k] == table[1..][k - 1];
      h
  }

  /** Entry `k` of the command table has index `k + 1`. */
  lemma CommandIndices()
    ensures |COMMANDS| == 8
    ensures forall k :: 0 <= k < |COMMANDS| ==> COMMANDS[k].index == k + 1
  {
  }

  /** No two entries of the command table share an index, so every entry is reached by its own index, and exactly 1 to 8 are known. */
  lemma CommandTableIsUnambiguous()
    ensures forall j, k :: 0 <= j < k < |COMMANDS| ==> COMMANDS[j].index != COMMANDS[k].index
    ensures forall k :: 0 <= k < |COMMANDS| ==> FindCommand(COMMANDS, COMMANDS[k].index) == Some(COMMANDS[k].callback)
    ensures forall i :: FindCommand(COMMANDS, i).Some? <==> 1 <= i <= 8
  {
    CommandIndices();
    forall k | 0 <= k < |COMMANDS|
      ensures FindCommand(COMMANDS, COMMANDS[k].index) == Some(COMMANDS[k].callback)
    {
      var h := FindCommand(COMMANDS, k + 1);
      var j :| 0 <= j < |COMMANDS| && COMMANDS[j] == CommandEntry(k + 1, h.value);
      assert j == k;
    }
    forall i
      ensures FindCommand(COMMANDS, i).Some? <==> 1 <= i <= 8
    {
      if 1 <= i <= 8 {
        assert COMMANDS[i - 1].index == i;
      }
    }
  }

  /** What `protocol_execute_command` does: it returns a length, or never returns because the command jumped to the application. */
  datatype CommandOutcome =
    | Returned(result: int, written: seq<byte>, config: Config)
    | Jumped(config: Config)

  /** The dispatcher, given the datagram's data, the command table and the configuration (which handlers may change). */
  type Dispatcher = (seq<byte>, seq<CommandEntry>, Config) -> CommandOutcome

  /** The collaborators the loop calls. */
  datatype Env = Env(codec: Codec, dispatch: Dispatcher)

  // ---------------------------------------------------------------------------
  // Frame identifiers
  // ---------------------------------------------------------------------------

  predicate IsStartOfDatagram(id: bv32)
  {
    id & START_OF_DATAGRAM_MASK != 0
  }

  /** The identifier of the first frame of a datagram sent by `sourceId`. */
  function StartId(sourceId: byte): bv32
  {
    (sourceId as bv32) | START_OF_DATAGRAM_MASK
  }

  /** The reply address: the received identifier with the start bit cleared, stored in a `uint8_t`. */
  function ReturnId(id: bv32): (r: byte)
    ensures r & 0x80 == 0
    ensures r as bv32 == id & 0x7F
  {
    ((id & !START_OF_DATAGRAM_MASK) & 0xFF) as bv8
  }

  // ---------------------------------------------------------------------------
  // Sending a reply datagram (return_datagram)
  // ---------------------------------------------------------------------------

  function Min(a: int, b: int): int
  {
    if a < b then a else b
  }

  /** Number of frames needed for `n` wire bytes. */
  function ChunkCount(n: nat): nat
  {
    (n + FRAME_SIZE - 1) / FRAME_SIZE
  }

  /** The `k`-th slice the encoder hands out. */
  function Chunk(wire: seq<byte>, k: nat): seq<byte>
    requires k < ChunkCount(|wire|)
  {
    wire[FRAME_SIZE * k .. Min(FRAME_SIZE * k + FRAME_SIZE, |wire|)]
  }

  /** Only the first frame of a reply carries the start bit. */
  function ReplyFrameId(sourceId: byte, k: nat): bv32
  {
    if k == 0 then StartId(sourceId) else sourceId as bv32
  }

  /** All frames of a reply datagram whose wire bytes are `wire`, in sending order. */
  function ReplyFrames(sourceId: byte, wire: seq<byte>): seq<Frame>
  {
    seq(ChunkCount(|wire|), k requires 0 <= k < ChunkCount(|wire|) => Frame(ReplyFrameId(sourceId, k), Chunk(wire, k)))
  }

  /** Every reply frame holds 1 to 8 bytes; the first carries the start bit, every later one the plain source ID. */
  lemma ReplyFramesShape(sourceId: byte, wire: seq<byte>)
    ensures |ReplyFrames(sourceId, wire)| == ChunkCount(|wire|)
    ensures forall k :: 0 <= k < ChunkCount(|wire|) ==> 1 <= |ReplyFrames(sourceId, wire)[k].data| <= FRAME_SIZE
    ensures |wire| > 0 ==> ReplyFrames(sourceId, wire)[0].id == StartId(sourceId) && IsStartOfDatagram(StartId(sourceId))
    ensures forall k :: 1 <= k < ChunkCount(|wire|) ==> ReplyFrames(sourceId, wire)[k].id == sourceId as bv32
  {
  }

  /**
   * How many of `n` frames are handed to the driver when frame `k` onwards
   * are still to go: sending stops after the first frame the driver refuses.
   */
  function SentCount(n: nat, sendOk: nat -> bool, k: nat): (c: nat)
    requires k <= n
    decreases n - k
    ensures k <= c <= n
    ensures forall j :: k <= j < c - 1 ==> sendOk(j)
    ensures c < n ==> k < c && !sendOk(c - 1)
  {
    if k == n then n
    else if !sendOk(k) then k + 1
    else SentCount(n, sendOk, k + 1)
  }

  /** The frames handed to the driver, in order, when the driver's answer to the `k`-th one is `sendOk(k)`. */
  function SendUntilFailure(frames: seq<Frame>, sendOk: nat -> bool): (sent: seq<Frame>)
  {
    frames[..SentCount(|frames|, sendOk, 0)]
  }

  /** Sending stops exactly at the first refused frame: everything before it was accepted, nothing after it is tried. */
  lemma SendStopsAtFirstFailure(frames: seq<Frame>, sendOk: nat -> bool)
    ensures SendUntilFailure(frames, sendOk) == frames[..|SendUntilFailure(frames, sendOk)|]
    ensures forall j :: 0 <= j < |SendUntilFailure(frames, sendOk)| - 1 ==> sendOk(j)
    ensures |SendUntilFailure(frames, sendOk)| < |frames| ==>
              |SendUntilFailure(frames, sendOk)| > 0 && !sendOk(|SendUntilFailure(frames, sendOk)| - 1)
    ensures (forall j :: 0 <= j < |frames| ==> sendOk(j)) ==> SendUntilFailure(frames, sendOk) == frames
  {
  }

  /**
   * `return_datagram`: encodes a datagram addressed to `destId` alone and
   * hands its frames to the driver one by one, the first with the start bit,
   * until the encoder is exhausted or the driver refuses a frame.
   * The result is the list of frames handed to the driver.
   */
  method ReturnDatagram(codec: Codec, sourceId: byte, destId: byte, data: seq<byte>, sendOk: nat -> bool)
    returns (attempted: seq<Frame>)
    ensures attempted == SendUntilFailure(ReplyFrames(sourceId, codec.encode([destId], data)), sendOk)
  {
    var wire := codec.encode([destId], data);
    ghost var all := ReplyFrames(sourceId, wire);
    var pos := 0;
    var startOfDatagram := true;
    attempted := [];
    while true
      invariant |attempted| <= |all|
      invariant pos == Min(FRAME_SIZE * |attempted|, |wire|)
      invariant attempted == all[..|attempted|]
      invariant startOfDatagram <==> |attempted| == 0
      invariant SentCount(|all|, sendOk, 0) == SentCount(|all|, sendOk, |attempted|)
      decreases |wire| - pos
    {
      ghost var k := |attempted|;
      ReplyFrameAt(sourceId, wire, k);
      var dlc := Min(pos + FRAME_SIZE, |wire|) - pos;
      var buf := wire[pos .. pos + dlc];
      pos := pos + dlc;
      if dlc == 0 {
        assert attempted == all;
        break;
      }
      assert k < |all| && buf == all[k].data;
      SentCountStep(|all|, sendOk, k);
      PrefixExtend(all, k);
      var ok := sendOk(|attempted|);
      if startOfDatagram {
        attempted := attempted + [Frame(StartId(sourceId), buf)];
        if !ok {
          break;
        }
        startOfDatagram := false;
      } else {
        attempted := attempted + [Frame(sourceId as bv32, buf)];
        if !ok {
          break;
        }
      }
      assert attempted == all[..k + 1];
    }
  }

  /** One step of `SentCount`: an accepted frame passes the count on, a refused one ends it. */
  lemma SentCountStep(n: nat, sendOk: nat -> bool, k: nat)
    requires k < n
    ensures sendOk(k) ==> SentCount(n, sendOk, k) == SentCount(n, sendOk, k + 1)
    ensures !sendOk(k) ==> SentCount(n, sendOk, k) == k + 1
  {
  }

  lemma PrefixExtend<T>(s: seq<T>, k: nat)
    requires k < |s|
    ensures s[..k] + [s[k]] == s[..k + 1]
  {
  }

  /** Frame `k` of a reply exists exactly when the wire has bytes past `8 * k`, and holds the next slice of at most 8 of them. */
  lemma ReplyFrameAt(sourceId: byte, wire: seq<byte>, k: nat)
    ensures FRAME_SIZE * k < |wire| <==> k < |ReplyFrames(sourceId, wire)|
    ensures k < |ReplyFrames(sourceId, wire)| ==>
              ReplyFrames(sourceId, wire)[k] ==
                Frame(ReplyFrameId(sourceId, k), wire[FRAME_SIZE * k .. Min(FRAME_SIZE * k + FRAME_SIZE, |wire|)])
  {
    var n := |wire|;
    if FRAME_SIZE * k < n {
      assert (n + FRAME_SIZE - 1) / FRAME_SIZE >= k + 1 by {
        assert n + FRAME_SIZE - 1 >= FRAME_SIZE * (k + 1);
      }
    } else {
      assert (n + FRAME_SIZE - 1) / FRAME_SIZE <= k by {
        assert n + FRAME_SIZE - 1 < FRAME_SIZE * (k + 1);
      }
    }
  }

  // ---------------------------------------------------------------------------
  // Reassembly
  // ---------------------------------------------------------------------------

  /** The bytes the codec has been fed after a frame arrives: restarted by a start bit, then every payload byte in order. */
  function Reassemble(received: seq<byte>, f: Frame): seq<byte>
  {
    (if IsStartOfDatagram(f.id) then [] else received) + f.data
  }

  /** Feeds every byte of a frame's payload to the codec, in order. */
  method FeedBytes(received: seq<byte>, data: seq<byte>) returns (r: seq<byte>)
    ensures r == received + data
  {
    r := received;
    var i := 0;
    while i < |data|
      invariant 0 <= i <= |data|
      invariant r == received + data[..i]
    {
      r := r + [data[i]];
      i := i + 1;
    }
    assert data[..i] == data;
  }

  /** The bytes fed after a sequence of frames, the last frame last. */
  function FeedFrames(received: seq<byte>, frames: seq<Frame>): seq<byte>
  {
    if frames == [] then received
    else Reassemble(FeedFrames(received, frames[..|frames| - 1]), frames[|frames| - 1])
  }

  lemma {:induction false} ReplyPrefixReassembles(sourceId: byte, wire: seq<byte>, received: seq<byte>, k: nat)
    requires sourceId & 0x80 == 0
    requires 1 <= k <= ChunkCount(|wire|)
    ensures FeedFrames(received, ReplyFrames(sourceId, wire)[..k]) == wire[..Min(FRAME_SIZE * k, |wire|)]
  {
    var all := ReplyFrames(sourceId, wire);
    assert all[..k][..k - 1] == all[..k - 1];
    if k == 1 {
      assert IsStartOfDatagram(all[0].id);
    } else {
      ReplyPrefixReassembles(sourceId, wire, received, k - 1);
      assert !IsStartOfDatagram(sourceId as bv32);
      assert all[k - 1].id == sourceId as bv32;
      assert wire[..FRAME_SIZE * (k - 1)] + Chunk(wire, k - 1) == wire[..Min(FRAME_SIZE * k, |wire|)];
    }
  }

  /**
   * Round trip of the framing: a receiver that restarts reassembly on the
   * start bit, fed every frame of a reply in order, holds exactly the wire
   * bytes of that reply, whatever it held before. This needs a source ID
   * below 128, since an ID with bit 7 set marks every frame as a start.
   */
  lemma ReplyReassembles(sourceId: byte, wire: seq<byte>, received: seq<byte>)
    requires sourceId & 0x80 == 0
    requires wire != []
    ensures FeedFrames(received, ReplyFrames(sourceId, wire)) == wire
  {
    var all := ReplyFrames(sourceId, wire);
    ReplyPrefixReassembles(sourceId, wire, received, |all|);
    assert all[..|all|] == all;
  }

  /** With source ID 0x80 every frame of a two-frame reply restarts reassembly, so the receiver keeps only the second frame. */
  lemma HighSourceIdBreaksReassembly(wire: seq<byte>)
    requires 9 <= |wire| <= 16
    ensures FeedFrames([], ReplyFrames(0x80, wire)) == wire[8..]
    ensures FeedFrames([], ReplyFrames(0x80, wire)) != wire
  {
    var all := ReplyFrames(0x80, wire);
    assert |all| == 2;
    assert all[..1] == [all[0]];
    assert all[1].id == 0x80;
    assert all[1].data == wire[8..];
    assert [all[0]][..0] == [];
  }

  // ---------------------------------------------------------------------------
  // The loop state and one iteration of the loop
  // ---------------------------------------------------------------------------

  /** Addressing check of the loop: scans the destination list for this node's ID. */
  method IsAddressed(destinations: seq<byte>, id: byte) returns (addressed: bool)
    ensures addressed <==> id in destinations
  {
    var i := 0;
    while i < |destinations|
      invariant 0 <= i <= |destinations|
      invariant id !in destinations[..i]
    {
      if destinations[i] == id {
        break;
      }
      i := i + 1;
    }
    assert i == |destinations| ==> destinations[..i] == destinations;
    addressed := i != |destinations|;
  }

  /** The output buffer after a handler wrote `written` at its start (never past its end). */
  function Overwrite(buffer: seq<byte>, written: seq<byte>): (r: seq<byte>)
    ensures |r| == |buffer|
    ensures forall i :: 0 <= i < |r| ==> r[i] == if i < |written| then written[i] else buffer[i]
  {
    if |written| >= |buffer| then written[..|buffer|] else written + buffer[|written|..]
  }

  /** Writes a handler's response into the output buffer in place. */
  method WriteOutput(buffer: array<byte>, written: seq<byte>)
    modifies buffer
    ensures buffer[..] == Overwrite(old(buffer[..]), written)
  {
    var n := Min(|written|, buffer.Length);
    for j := 0 to n
      invariant forall i :: 0 <= i < j ==> buffer[i] == written[i]
      invariant forall i :: j <= i < buffer.Length ==> buffer[i] == old(buffer[i])
    {
      buffer[j] := written[j];
    }
  }

  datatype Mode =
    | Running
    | Halted                      // no valid configuration: the code spins forever
    | Application(config: Config) // control was handed to the application (never returns)

  /** Everything the loop keeps between iterations, and the frames it has handed to the driver. */
  datatype LoopState = LoopState(
    mode: Mode,
    config: Config,
    timeoutActive: bool,
    received: seq<byte>,
    output: seq<byte>,
    sent: seq<Frame>)

  predicate WellFormed(s: LoopState)
  {
    |s.output| == OUTPUT_BUF_SIZE
  }

  /** What the environment answers during one iteration: the clock, the receive call and the driver's answers to the reply's frames. */
  datatype Poll = Poll(timeoutReached: bool, frame: Option<Frame>, sendOk: nat -> bool)

  /** Configuration selection: the first page if it validates, else the second, else none. */
  function SelectConfig(region1: ConfigRegion, region2: ConfigRegion): (c: Option<Config>)
    ensures c.Some? <==> region1.valid || region2.valid
    ensures region1.valid ==> c == Some(region1.record)
    ensures !region1.valid && region2.valid ==> c == Some(region2.record)
  {
    if region1.valid then Some(region1.record)
    else if region2.valid then Some(region2.record)
    else None
  }

  /** The state on entering the loop. */
  function Boot(arg: int, region1: ConfigRegion, region2: ConfigRegion): (s: LoopState)
    ensures WellFormed(s)
  {
    var selected := SelectConfig(region1, region2);
    LoopState(
      if selected.Some? then Running else Halted,
      if selected.Some? then selected.value else region1.record,
      arg != BOOT_ARG_START_BOOTLOADER_NO_TIMEOUT,
      [],
      seq(OUTPUT_BUF_SIZE, _ => 0),
      [])
  }

  /** The start state: which configuration is used and whether the timeout is armed. */
  lemma BootState(arg: int, region1: ConfigRegion, region2: ConfigRegion)
    ensures Boot(arg, region1, region2).timeoutActive <==> arg != BOOT_ARG_START_BOOTLOADER_NO_TIMEOUT
    ensures region1.valid ==> Boot(arg, region1, region2).mode.Running? && Boot(arg, region1, region2).config == region1.record
    ensures !region1.valid && region2.valid ==>
              Boot(arg, region1, region2).mode.Running? && Boot(arg, region1, region2).config == region2.record
    ensures !region1.valid && !region2.valid ==> Boot(arg, region1, region2).mode == Halted
    ensures Boot(arg, region1, region2).received == [] && Boot(arg, region1, region2).sent == []
  {
  }

  /** The frames of the reply to a command whose result was `len`, sent from `config` to the sender of `f`. */
  function Reply(env: Env, config: Config, f: Frame, output: seq<byte>, len: nat, sendOk: nat -> bool): seq<Frame>
    requires len <= |output|
  {
    SendUntilFailure(ReplyFrames(config.id, env.codec.encode([ReturnId(f.id)], output[..len])), sendOk)
  }

  /** One iteration of the `while (true)` loop of `bootloader_main`. */
  function Next(env: Env, s: LoopState, poll: Poll): (r: LoopState)
    requires WellFormed(s)
    ensures WellFormed(r)
  {
    if !s.mode.Running? then s
    else if s.timeoutActive && poll.timeoutReached then s.(mode := Application(s.config))
    else if poll.frame.None? then s
    else OnFrame(env, s, poll.frame.value, poll.sendOk)
  }

  /** A frame was received: restart on the start bit, feed its bytes, and act on a complete datagram. */
  function OnFrame(env: Env, s: LoopState, f: Frame, sendOk: nat -> bool): (r: LoopState)
    requires WellFormed(s)
    ensures WellFormed(r)
  {
    var s' := s.(received := Reassemble(s.received, f));
    if env.codec.isComplete(s'.received) then OnDatagram(env, s', f, sendOk) else s'
  }

  /** `s.received` holds a complete datagram that arrived with frame `f`. */
  function OnDatagram(env: Env, s: LoopState, f: Frame, sendOk: nat -> bool): (r: LoopState)
    requires WellFormed(s)
    ensures WellFormed(r)
  {
    if !env.codec.isValid(s.received) then s.(received := [])
    else if s.config.id !in env.codec.destinations(s.received) then s.(timeoutActive := false, received := [])
    else OnCommand(env, s.(timeoutActive := false), f, sendOk)
  }

  /** `s.received` holds a complete, valid datagram addressed to this node: dispatch it and reply. */
  function OnCommand(env: Env, s: LoopState, f: Frame, sendOk: nat -> bool): (r: LoopState)
    requires WellFormed(s)
    ensures WellFormed(r)
  {
    match env.dispatch(env.codec.data(s.received), COMMANDS, s.config)
    case Jumped(c) => s.(mode := Application(c))
    case Returned(result, written, c) =>
      var output := Overwrite(s.output, written);
      var len := result % 256;
      var reply := if len == 0 then [] else Reply(env, c, f, output, len, sendOk);
      s.(config := c, output := output, sent := s.sent + reply, received := [])
  }

  /** The loop run over a sequence of polls. */
  function RunAll(env: Env, s: LoopState, polls: seq<Poll>): (r: LoopState)
    requires WellFormed(s)
    ensures WellFormed(r)
    decreases |polls|
  {
    if polls == [] then s else RunAll(env, Next(env, s, polls[0]), polls[1..])
  }

  // ---------------------------------------------------------------------------
  // Properties of one iteration
  // ---------------------------------------------------------------------------

  /** Once halted or in the application, nothing changes any more. */
  lemma TerminalModesAreFinal(env: Env, s: LoopState, poll: Poll)
    requires WellFormed(s) && !s.mode.Running?
    ensures Next(env, s, poll) == s
  {
  }

  /** An armed timeout that has expired hands control to the application with the loaded configuration. */
  lemma TimeoutJumpsToApplication(env: Env, s: LoopState, poll: Poll)
    requires WellFormed(s) && s.mode.Running?
    ensures s.timeoutActive && poll.timeoutReached ==> Next(env, s, poll) == s.(mode := Application(s.config))
    ensures !(s.timeoutActive && poll.timeoutReached) && Next(env, s, poll).mode.Application? ==>
              && poll.frame.Some?
              && env.dispatch(env.codec.data(Reassemble(s.received, poll.frame.value)), COMMANDS, s.config).Jumped?
  {
  }

  /** No iteration arms the timeout. */
  lemma TimeoutNeverRearmed(env: Env, s: LoopState, poll: Poll)
    requires WellFormed(s)
    ensures Next(env, s, poll).timeoutActive ==> s.timeoutActive
  {
  }

  /** The log of frames handed to the driver only grows. */
  lemma SentOnlyGrows(env: Env, s: LoopState, poll: Poll)
    requires WellFormed(s)
    ensures s.sent <= Next(env, s, poll).sent
  {
  }

  /**
   * A frame with the start bit restarts reassembly before its bytes are fed;
   * every byte is fed in order; a datagram that is not complete keeps
   * accumulating, and any complete one (valid or not, addressed or not)
   * restarts reassembly unless the command never returned.
   */
  lemma ReassemblyOfFrame(env: Env, s: LoopState, poll: Poll)
    requires WellFormed(s) && s.mode.Running? && !(s.timeoutActive && poll.timeoutReached)
    requires poll.frame.Some?
    ensures var bytes := Reassemble(s.received, poll.frame.value);
            && (IsStartOfDatagram(poll.frame.value.id) ==> bytes == poll.frame.value.data)
            && (!env.codec.isComplete(bytes) ==> Next(env, s, poll).received == bytes)
            && (env.codec.isComplete(bytes) && Next(env, s, poll).mode.Running? ==> Next(env, s, poll).received == [])
  {
  }

  /** Any complete and valid datagram disarms the timeout, whether or not it is addressed to this node. */
  lemma ValidDatagramDisarmsTimeout(env: Env, s: LoopState, poll: Poll)
    requires WellFormed(s) && s.mode.Running? && !(s.timeoutActive && poll.timeoutReached)
    requires poll.frame.Some?
    requires env.codec.isComplete(Reassemble(s.received, poll.frame.value))
    requires env.codec.isValid(Reassemble(s.received, poll.frame.value))
    ensures !Next(env, s, poll).timeoutActive
  {
  }

  /**
   * The dispatcher's effects (a new configuration, a new output buffer,
   * frames sent, a jump) happen only for a complete, valid datagram whose
   * destination list holds this node's ID.
   */
  lemma NoCommandUnlessAddressed(env: Env, s: LoopState, poll: Poll)
    requires WellFormed(s) && s.mode.Running? && !(s.timeoutActive && poll.timeoutReached)
    requires poll.frame.Some?
    requires var bytes := Reassemble(s.received, poll.frame.value);
             !(env.codec.isComplete(bytes) && env.codec.isValid(bytes) && s.config.id in env.codec.destinations(bytes))
    ensures Next(env, s, poll).mode == Running
    ensures Next(env, s, poll).config == s.config
    ensures Next(env, s, poll).output == s.output
    ensures Next(env, s, poll).sent == s.sent
  {
  }

  /**
   * For a complete, valid datagram that names this node, the dispatcher runs
   * on its data; a non-zero result (taken modulo 256) sends the first `len`
   * bytes of the output buffer back to the sender's ID with the start bit
   * cleared, from the configuration's ID; a zero result sends nothing.
   */
  lemma AddressedDatagramRunsCommand(env: Env, s: LoopState, poll: Poll)
    requires WellFormed(s) && s.mode.Running? && !(s.timeoutActive && poll.timeoutReached)
    requires poll.frame.Some?
    requires var bytes := Reassemble(s.received, poll.frame.value);
             env.codec.isComplete(bytes) && env.codec.isValid(bytes) && s.config.id in env.codec.destinations(bytes)
    ensures var f := poll.frame.value;
            var r := Next(env, s, poll);
            match env.dispatch(env.codec.data(Reassemble(s.received, f)), COMMANDS, s.config)
            case Jumped(c) => r.mode == Application(c)
            case Returned(result, written, c) =>
              && r.mode == Running && r.config == c && !r.timeoutActive
              && r.output == Overwrite(s.output, written)
              && (result % 256 == 0 ==> r.sent == s.sent)
              && (result % 256 != 0 ==> r.sent == s.sent + Reply(env, c, f, r.output, result % 256, poll.sendOk))
  {
  }

  /** The result is kept in a `uint8_t`: a command reporting 256 bytes of output sends no reply at all. */
  lemma ResultOf256SendsNothing(env: Env, s: LoopState, poll: Poll, written: seq<byte>, c: Config)
    requires WellFormed(s) && s.mode.Running? && !(s.timeoutActive && poll.timeoutReached)
    requires poll.frame.Some?
    requires var bytes := Reassemble(s.received, poll.frame.value);
             && env.codec.isComplete(bytes) && env.codec.isValid(bytes) && s.config.id in env.codec.destinations(bytes)
             && env.dispatch(env.codec.data(bytes), COMMANDS, s.config) == Returned(256, written, c)
    ensures Next(env, s, poll).sent == s.sent
  {
  }

  // ---------------------------------------------------------------------------
  // Properties of whole runs
  // ---------------------------------------------------------------------------

  /** Once disarmed, the timeout stays disarmed for the rest of the run. */
  lemma {:induction false} TimeoutStaysDisarmed(env: Env, s: LoopState, polls: seq<Poll>)
    requires WellFormed(s) && !s.timeoutActive
    ensures !RunAll(env, s, polls).timeoutActive
    decreases |polls|
  {
    if polls != [] {
      TimeoutNeverRearmed(env, s, polls[0]);
      TimeoutStaysDisarmed(env, Next(env, s, polls[0]), polls[1..]);
    }
  }

  /** Frames once handed to the driver stay in the log: a run only appends. */
  lemma {:induction false} RunOnlyAppendsFrames(env: Env, s: LoopState, polls: seq<Poll>)
    requires WellFormed(s)
    ensures s.sent <= RunAll(env, s, polls).sent
    decreases |polls|
  {
    if polls != [] {
      SentOnlyGrows(env, s, polls[0]);
      RunOnlyAppendsFrames(env, Next(env, s, polls[0]), polls[1..]);
    }
  }

  /** After the jump to the application (or the halt) no later poll changes anything. */
  lemma {:induction false} TerminalModesAreFinalForRuns(env: Env, s: LoopState, polls: seq<Poll>)
    requires WellFormed(s) && !s.mode.Running?
    ensures RunAll(env, s, polls) == s
    decreases |polls|
  {
    if polls != [] {
      TerminalModesAreFinal(env, s, polls[0]);
      TerminalModesAreFinalForRuns(env, s, polls[1..]);
    }
  }

  /**
   * A run that ends with the timeout still armed never saw a complete,
   * valid datagram: every poll either delivered no frame or left the
   * datagram incomplete or invalid.
   */
  lemma {:induction false} ArmedRunSawNoValidDatagram(env: Env, s: LoopState, polls: seq<Poll>, k: nat)
    requires WellFormed(s) && s.mode.Running?
    requires k < |polls|
    requires RunAll(env, s, polls).timeoutActive
    ensures var before := RunAll(env, s, polls[..k]);
            before.mode.Running? && polls[k].frame.Some? && !polls[k].timeoutReached ==>
              var bytes := Reassemble(before.received, polls[k].frame.value);
              !(env.codec.isComplete(bytes) && env.codec.isValid(bytes))
    decreases k
  {
    if k == 0 {
      assert polls[..0] == [];
      if s.mode.Running? && polls[0].frame.Some? && !polls[0].timeoutReached {
        var bytes := Reassemble(s.received, polls[0].frame.value);
        if env.codec.isComplete(bytes) && env.codec.isValid(bytes) {
          TimeoutStaysDisarmed(env, Next(env, s, polls[0]), polls[1..]);
        }
      }
    } else {
      var s1 := Next(env, s, polls[0]);
      assert polls[1..][..k - 1] == polls[..k][1..];
      assert polls[1..][k - 1] == polls[k];
      if s1.mode.Running? {
        ArmedRunSawNoValidDatagram(env, s1, polls[1..], k - 1);
      } else {
        TerminalModesAreFinalForRuns(env, s1, polls[1..]);
        TerminalModesAreFinalForRuns(env, s1, polls[..k][1..]);
      }
    }
  }

  // ---------------------------------------------------------------------------
  // The loop itself
  // ---------------------------------------------------------------------------

  /** The state of `bootloader_main`: its locals, the reassembly state and the static output buffer. */
  class BootloaderLoop {
    const env: Env
    const outputBuf: array<byte>
    var mode: Mode
    var config: Config
    var timeoutActive: bool
    var received: seq<byte>
    var sent: seq<Frame>

    ghost predicate Valid()
      reads this
    {
      outputBuf.Length == OUTPUT_BUF_SIZE
    }

    function State(): LoopState
      reads this, outputBuf
    {
      LoopState(mode, config, timeoutActive, received, outputBuf[..], sent)
    }

    /** Entry of `bootloader_main`: arm the timeout, pick a configuration, start reassembly. */
    constructor (arg: int, region1: ConfigRegion, region2: ConfigRegion, env: Env)
      ensures Valid() && fresh(outputBuf)
      ensures this.env == env
      ensures State() == Boot(arg, region1, region2)
    {
      this.env := env;
      timeoutActive := !(arg == BOOT_ARG_START_BOOTLOADER_NO_TIMEOUT);
      if region1.valid {
        config := region1.record;
        mode := Running;
      } else if region2.valid {
        config := region2.record;
        mode := Running;
      } else {
        config := region1.record;
        mode := Halted;
      }
      outputBuf := new byte[OUTPUT_BUF_SIZE](_ => 0);
      received := [];
      sent := [];
      new;
      assert outputBuf[..] == seq(OUTPUT_BUF_SIZE, _ => 0);
    }

    /** One iteration of the loop. */
    method Step(poll: Poll)
      requires Valid()
      modifies this, outputBuf
      ensures Valid()
      ensures State() == Next(env, old(State()), poll)
    {
      if !mode.Running? {
        return;
      }
      if timeoutActive && poll.timeoutReached {
        mode := Application(config);
        return;
      }
      if poll.frame.None? {
        return;
      }
      var f := poll.frame.value;
      if f.id & START_OF_DATAGRAM_MASK != 0 {
        received := [];
      }
      received := FeedBytes(received, f.data);
      if env.codec.isComplete(received) {
        ProcessDatagram(f, poll.sendOk);
      }
    }

    /** The datagram in `received` is complete. */
    method ProcessDatagram(f: Frame, sendOk: nat -> bool)
      requires Valid()
      modifies this, outputBuf
      ensures Valid()
      ensures State() == OnDatagram(env, old(State()), f, sendOk)
    {
      if env.codec.isValid(received) {
        timeoutActive := false;
        var addressed := IsAddressed(env.codec.destinations(received), config.id);
        if addressed {
          var jumped := RunCommand(f, sendOk);
          if jumped {
            return;
          }
        }
      }
      received := [];
    }

    /** The datagram in `received` is complete, valid and addressed to this node. */
    method RunCommand(f: Frame, sendOk: nat -> bool) returns (jumped: bool)
      requires Valid()
      modifies this, outputBuf
      ensures Valid()
      ensures jumped == env.dispatch(env.codec.data(old(received)), COMMANDS, old(config)).Jumped?
      ensures var r := OnCommand(env, old(State()), f, sendOk);
              State() == if jumped then r else r.(received := old(received))
    {
      var outcome := env.dispatch(env.codec.data(received), COMMANDS, config);
      match outcome {
        case Jumped(c) =>
          mode := Application(c);
          jumped := true;
        case Returned(result, written, c) =>
          jumped := false;
          config := c;
          WriteOutput(outputBuf, written);
          var len := result % 256;
          if len > 0 {
            var frames := ReturnDatagram(env.codec, config.id, ReturnId(f.id), outputBuf[..len], sendOk);
            sent := sent + frames;
          }
      }
    }

    /** The loop over a finite prefix of the environment's answers. */
    method Run(polls: seq<Poll>)
      requires Valid()
      modifies this, outputBuf
      ensures Valid()
      ensures State() == RunAll(env, old(State()), polls)
    {
      for k := 0 to |polls|
        invariant Valid()
        invariant RunAll(env, old(State()), polls) == RunAll(env, State(), polls[k..])
      {
        assert polls[k..][1..] == polls[k + 1..];
        Step(polls[k]);
      }
    }
  }
}
