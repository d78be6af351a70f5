/**
 The telescoped handshake: over one connection to the first node the client agrees a key with every
 node of a chain in turn. A node answers its own request, forwards the next frame to the node that
 its request named, returns that node's answer, and from then on pipes bytes blindly in both
 directions, in chunks of any size. Nodes replace their key pairs at any time.
 */
module Telescope {
  import opened Common
  import opened Bytes
  import opened Crypto
  import opened Net

  const REQUEST_BYTES := 68 // role, target port, public key
  const DESCRIPTOR_MIN := 131 // two public keys and a signature length
  const MAX_REPLY_BYTES := 211
  const PIPE_CHUNK := 4096

  // ---------------------------------------------------------------- messages

  datatype Request = Request(role: byte, target: Port, clientPub: PubKey)

  function EncodeRequest(r: Request): (b: Octets)
    ensures |b| == REQUEST_BYTES
  {
    [r.role] + Be16(r.target) + r.clientPub
  }

  function ParseRequest(b: Octets): Option<Request> {
    if |b| != REQUEST_BYTES then None else Some(Request(b[0], FromBe16(b[1], b[2]), b[3..]))
  }

  lemma RequestRoundTrip(r: Request)
    ensures ParseRequest(EncodeRequest(r)) == Some(r)
  {
  }

  /** The node's key with its identity's signature over it. */
  function Descriptor(c: Exchange, nodePub: PubKey, identity: Priv): (b: Octets)
    ensures DESCRIPTOR_MIN < |b| <= MAX_REPLY_BYTES
  {
    nodePub + c.pub(identity) + [|c.sign(identity, nodePub)|] + c.sign(identity, nodePub)
  }

  /** recv_signed_descriptor: the node's key, if the signature in the reply verifies. */
  function ReadDescriptor(c: Exchange, b: Octets): Option<PubKey> {
    if |b| < DESCRIPTOR_MIN then None
    else
      var len := b[2 * EC_PUBKEY_LEN];
      if len == 0 || len > SIGNATURE_MAX_LEN || DESCRIPTOR_MIN + len > |b| then None
      else if !c.verify(b[EC_PUBKEY_LEN..2 * EC_PUBKEY_LEN], b[..EC_PUBKEY_LEN],
                        b[DESCRIPTOR_MIN..DESCRIPTOR_MIN + len]) then None
      else Some(b[..EC_PUBKEY_LEN])
  }

  lemma DescriptorRoundTrip(c: Exchange, nodePub: PubKey, identity: Priv)
    requires LawfulExchange(c)
    ensures ReadDescriptor(c, Descriptor(c, nodePub, identity)) == Some(nodePub)
  {
    var b, sig := Descriptor(c, nodePub, identity), c.sign(identity, nodePub);
    assert b[..EC_PUBKEY_LEN] == nodePub && b[2 * EC_PUBKEY_LEN] == |sig|;
    assert b[EC_PUBKEY_LEN..2 * EC_PUBKEY_LEN] == c.pub(identity);
    assert b[DESCRIPTOR_MIN..DESCRIPTOR_MIN + |sig|] == sig;
  }

  /** A key is taken from a reply only if the identity in it signed this key. */
  lemma DescriptorMustVerify(c: Exchange, b: Octets)
    requires ReadDescriptor(c, b).Some?
    ensures |b| > 131 && 131 + b[130] <= |b| && ReadDescriptor(c, b) == Some(b[..65])
    ensures c.verify(b[65..130], b[..65], b[131..131 + b[130]])
  {
  }

  /** A reply that is cut short anywhere is refused. */
  lemma CutDescriptorIsRefused(c: Exchange, nodePub: PubKey, identity: Priv, n: nat)
    requires n < |Descriptor(c, nodePub, identity)|
    ensures ReadDescriptor(c, Descriptor(c, nodePub, identity)[..n]) == None
  {
    var b := Descriptor(c, nodePub, identity);
    if n > 130 { assert b[..n][130] == b[130] == |c.sign(identity, nodePub)|; }
  }

  // ---------------------------------------------------------------- the chain

  /** What the client decides beforehand, and the random bytes it will pad with. */
  datatype Plan = Plan(ports: seq<Port>, role: byte, privs: seq<Priv>, pads: seq<Pad>)

  ghost predicate PlanOk(p: Plan) {
    |p.ports| == |p.privs| == |p.pads| > 0 && forall i :: 0 < i < |p.ports| ==> p.ports[i] != 0
  }

  function RequestFor(c: Exchange, p: Plan, i: nat): Request
    requires i < |p.ports| == |p.privs|
  {
    Request(p.role, if i + 1 < |p.ports| then p.ports[i + 1] else 0, c.pub(p.privs[i]))
  }

  function FrameFor(c: Exchange, p: Plan, i: nat): (b: Octets)
    requires i < |p.ports| == |p.privs| == |p.pads|
    ensures |b| == WIRE_PACKET_SIZE
  {
    Frame(EncodeRequest(RequestFor(c, p, i)), p.pads[i])
  }

  /**
   How far a node is with its connection: it has yet to read its request, then a frame to forward, then the
   answer.
   */
  datatype Phase = Fresh | Reading | Waiting | Piping | Last

  /** What a node has agreed; priv is the key pair it used, recorded for the statements only. */
  datatype Session = Session(request: Request, nodePub: PubKey, master: Key, priv: Priv)

  datatype Node = Node(priv: Priv, identity: Priv, phase: Phase, session: Option<Session>)

  /** down[j] and up[j] are the bytes between node j and what is before it (the client for j = 0). */
  datatype System = System(
    next: nat, sent: bool, aborted: bool, masters: seq<Key>, nodePubs: seq<PubKey>,
    nodes: seq<Node>, down: seq<Octets>, up: seq<Octets>)

  datatype Step =
    | Send
    | Receive
    | Accept(j: nat, pad: Pad)
    | Relay(j: nat)
    | RelayReply(j: nat)
    | PipeDown(j: nat, k: nat)
    | PipeUp(j: nat, k: nat)
    | Rotate(j: nat, priv: Priv)

  function Start(nodes: seq<Node>): System {
    System(0, false, false, [], [], nodes, seq(|nodes|, _ => []), seq(|nodes|, _ => []))
  }

  ghost predicate Shaped(p: Plan, sys: System) {
    |sys.nodes| == |sys.down| == |sys.up| == |p.ports| == |p.privs| == |p.pads|
  }

  ghost predicate Enabled(p: Plan, sys: System, step: Step) {
    Shaped(p, sys) &&
    match step
    case Send => !sys.sent && !sys.aborted && sys.next < |p.ports|
    case Receive => sys.sent && !sys.aborted && sys.next < |p.ports| && |sys.up[0]| >= WIRE_PACKET_SIZE
    case Accept(j, _) => j < |sys.nodes| && sys.nodes[j].phase.Fresh? && |sys.down[j]| >= WIRE_PACKET_SIZE
    case Relay(j) =>
      j + 1 < |sys.nodes| && sys.nodes[j].phase.Reading? && |sys.down[j]| >= WIRE_PACKET_SIZE
      && sys.nodes[j].session.Some? && sys.nodes[j].session.value.request.target == p.ports[j + 1]
    case RelayReply(j) => j + 1 < |sys.nodes| && sys.nodes[j].phase.Waiting? && |sys.up[j + 1]| >= WIRE_PACKET_SIZE
    case PipeDown(j, k) =>
      j + 1 < |sys.nodes| && sys.nodes[j].phase.Piping? && 0 < k <= PIPE_CHUNK && k <= |sys.down[j]|
    case PipeUp(j, k) =>
      j + 1 < |sys.nodes| && sys.nodes[j].phase.Piping? && 0 < k <= PIPE_CHUNK && k <= |sys.up[j + 1]|
    case Rotate(j, _) => j < |sys.nodes|
  }

  /** The first k bytes of link i go to the end of link j. */
  function Move(links: seq<Octets>, i: nat, j: nat, k: nat): (r: seq<Octets>)
    requires i < |links| && j < |links| && i != j && k <= |links[i]|
    ensures |r| == |links|
  {
    links[i := links[i][k..]][j := links[j] + links[i][..k]]
  }

  /** A node reads its own request, agrees a key under its present key pair, and answers. */
  function Accepted(c: Exchange, p: Plan, sys: System, j: nat, pad: Pad): System
    requires j < |sys.nodes| == |sys.down| == |sys.up| == |p.ports| && |sys.down[j]| >= WIRE_PACKET_SIZE
  {
    var node, rest := sys.nodes[j], sys.(down := sys.down[j := sys.down[j][WIRE_PACKET_SIZE..]]);
    match Unframe(sys.down[j][..WIRE_PACKET_SIZE], REQUEST_BYTES)
    case None => rest
    case Some(payload) =>
      match ParseRequest(payload)
      case None => rest
      case Some(r) =>
        var nodePub := c.pub(node.priv);
        var master := DeriveBound(c, node.priv, r.clientPub, r.clientPub, nodePub, p.ports[j], r.role);
        var session := Session(r, nodePub, master, node.priv);
        rest.(nodes := sys.nodes[j := node.(phase := if r.target != 0 then Reading else Last,
                                            session := Some(session))],
              up := sys.up[j := sys.up[j] + Frame(Descriptor(c, nodePub, node.identity), pad)])
  }

  function Received(c: Exchange, p: Plan, sys: System): System
    requires 0 < |sys.up| && |sys.up[0]| >= WIRE_PACKET_SIZE && sys.next < |p.ports| == |p.privs|
  {
    var i, rest := sys.next, sys.(up := sys.up[0 := sys.up[0][WIRE_PACKET_SIZE..]]);
    match Unframe(sys.up[0][..WIRE_PACKET_SIZE], MAX_REPLY_BYTES)
    case None => rest.(aborted := true)
    case Some(reply) =>
      match ReadDescriptor(c, reply)
      case None => rest.(aborted := true)
      case Some(nodePub) =>
        var master := DeriveBound(c, p.privs[i], nodePub, c.pub(p.privs[i]), nodePub, p.ports[i], p.role);
        rest.(next := i + 1, sent := false, masters := sys.masters + [master], nodePubs := sys.nodePubs + [nodePub])
  }

  ghost function Apply(c: Exchange, p: Plan, sys: System, step: Step): System
  {
    if !Enabled(p, sys, step) then sys else
    match step
    case Send => sys.(sent := true, down := sys.down[0 := sys.down[0] + FrameFor(c, p, sys.next)])
    case Receive => Received(c, p, sys)
    case Accept(j, pad) => Accepted(c, p, sys, j, pad)
    case Relay(j) =>
      sys.(down := Move(sys.down, j, j + 1, WIRE_PACKET_SIZE), nodes := sys.nodes[j := sys.nodes[j].(phase := Waiting)])
    case RelayReply(j) =>
      sys.(up := Move(sys.up, j + 1, j, WIRE_PACKET_SIZE), nodes := sys.nodes[j := sys.nodes[j].(phase := Piping)])
    case PipeDown(j, k) => sys.(down := Move(sys.down, j, j + 1, k))
    case PipeUp(j, k) => sys.(up := Move(sys.up, j + 1, j, k))
    case Rotate(j, priv) => sys.(nodes := sys.nodes[j := sys.nodes[j].(priv := priv)])
  }

  ghost function Run(c: Exchange, p: Plan, nodes: seq<Node>, steps: seq<Step>): System
  {
    if |steps| == 0 then Start(nodes) else Apply(c, p, Run(c, p, nodes, steps[..|steps| - 1]), steps[|steps| - 1])
  }

  // ---------------------------------------------------------------- bytes on several links

  /** What is on links 0 to m, oldest first, when bytes move to higher links. */
  function FlowDown(links: seq<Octets>, m: nat): Octets
    requires m < |links|
  {
    if m == 0 then links[0] else links[m] + FlowDown(links, m - 1)
  }

  /** The same when bytes move to lower links. */
  function FlowUp(links: seq<Octets>, m: nat): Octets
    requires m < |links|
  {
    if m == 0 then links[0] else FlowUp(links, m - 1) + links[m]
  }

  ghost predicate EmptyFrom(links: seq<Octets>, m: nat) {
    forall i :: m <= i < |links| ==> links[i] == []
  }

  ghost predicate EmptyBut(links: seq<Octets>, j: nat) {
    forall i :: 0 <= i < |links| && i != j ==> links[i] == []
  }

  lemma {:induction false} FlowDownSame(links: seq<Octets>, other: seq<Octets>, m: nat)
    requires m < |links| == |other| && forall i :: 0 <= i <= m ==> links[i] == other[i]
    ensures FlowDown(links, m) == FlowDown(other, m)
  {
    if m > 0 { FlowDownSame(links, other, m - 1); }
  }

  lemma {:induction false} FlowUpSame(links: seq<Octets>, other: seq<Octets>, m: nat)
    requires m < |links| == |other| && forall i :: 0 <= i <= m ==> links[i] == other[i]
    ensures FlowUp(links, m) == FlowUp(other, m)
  {
    if m > 0 { FlowUpSame(links, other, m - 1); }
  }

  lemma MoveChunk(a: Octets, x: Octets, k: nat, rest: Octets)
    requires k <= |x|
    ensures (a + x[..k]) + (x[k..] + rest) == a + (x + rest)
    ensures (a + x[..k]) + x[k..] == a + x
    ensures ((rest + a) + x[..k]) + x[k..] == (rest + a) + x
    ensures (rest + (a + x[..k])) + x[k..] == (rest + a) + x
  {
  }

  /** Piping a chunk to the next link leaves the bytes and their order as they are. */
  lemma {:induction false} PipeDownKeepsFlow(links: seq<Octets>, j: nat, k: nat, m: nat)
    requires j < m < |links| && k <= |links[j]|
    ensures FlowDown(Move(links, j, j + 1, k), m) == FlowDown(links, m)
  {
    var moved := Move(links, j, j + 1, k);
    if m > j + 1 {
      PipeDownKeepsFlow(links, j, k, m - 1);
    } else if j == 0 {
      MoveChunk(links[1], links[0], k, []);
    } else {
      FlowDownSame(links, moved, j - 1);
      MoveChunk(links[m], links[j], k, FlowDown(links, j - 1));
    }
  }

  lemma {:induction false} PipeUpKeepsFlow(links: seq<Octets>, j: nat, k: nat, m: nat)
    requires j < m < |links| && k <= |links[j + 1]|
    ensures FlowUp(Move(links, j + 1, j, k), m) == FlowUp(links, m)
  {
    var moved := Move(links, j + 1, j, k);
    if m > j + 1 {
      PipeUpKeepsFlow(links, j, k, m - 1);
    } else if j == 0 {
      MoveChunk(links[0], links[1], k, []);
    } else {
      FlowUpSame(links, moved, j - 1);
      MoveChunk(links[j], links[m], k, FlowUp(links, j - 1));
    }
  }

  /** If one link holds as many bytes as the whole flow, it holds the flow and the others are empty. */
  lemma {:induction false} AllOnOneDown(links: seq<Octets>, m: nat, j: nat)
    requires j <= m < |links| && |FlowDown(links, m)| <= |links[j]|
    ensures FlowDown(links, m) == links[j] && forall i :: 0 <= i <= m && i != j ==> links[i] == []
  {
    FlowDownAtLeast(links, m, j);
    if m > 0 {
      if j == m {
        if FlowDown(links, m - 1) == [] { NothingDown(links, m - 1); }
      } else {
        FlowDownAtLeast(links, m - 1, j);
        AllOnOneDown(links, m - 1, j);
      }
    }
  }

  lemma {:induction false} FlowDownAtLeast(links: seq<Octets>, m: nat, j: nat)
    requires j <= m < |links|
    ensures |FlowDown(links, m)| >= |links[j]|
  {
    if j < m { FlowDownAtLeast(links, m - 1, j); }
  }

  lemma {:induction false} NothingDown(links: seq<Octets>, m: nat)
    requires m < |links| && FlowDown(links, m) == []
    ensures forall i :: 0 <= i <= m ==> links[i] == []
  {
    if m > 0 { NothingDown(links, m - 1); }
  }

  lemma {:induction false} AllOnFirstUp(links: seq<Octets>, m: nat)
    requires m < |links| && |FlowUp(links, m)| <= |links[0]|
    ensures FlowUp(links, m) == links[0] && forall i :: 0 < i <= m ==> links[i] == []
  {
    if m > 0 {
      FlowUpAtLeast(links, m - 1);
      AllOnFirstUp(links, m - 1);
    }
  }

  lemma {:induction false} FlowUpAtLeast(links: seq<Octets>, m: nat)
    requires m < |links|
    ensures |FlowUp(links, m)| >= |links[0]|
  {
    if m > 0 { FlowUpAtLeast(links, m - 1); }
  }

  lemma MoveWhole(links: seq<Octets>, i: nat, j: nat)
    requires i < |links| && j < |links| && i != j && links[j] == []
    ensures Move(links, i, j, |links[i]|) == links[i := []][j := links[i]]
  {
    var x := links[i];
    assert x[..|x|] == x && x[|x|..] == [] && [] + x == x;
  }

  lemma {:induction false} OnlyFirstDown(links: seq<Octets>, m: nat)
    requires m < |links| && EmptyBut(links, 0)
    ensures FlowDown(links, m) == links[0]
  {
    if m > 0 { OnlyFirstDown(links, m - 1); }
  }

  lemma {:induction false} OnlyLastUp(links: seq<Octets>, m: nat)
    requires m < |links| && EmptyBut(links, m)
    ensures FlowUp(links, m) == links[m]
  {
    if m > 0 { NothingUp(links, m - 1); }
  }

  lemma {:induction false} NothingUp(links: seq<Octets>, m: nat)
    requires m < |links| && forall i :: 0 <= i <= m ==> links[i] == []
    ensures FlowUp(links, m) == []
  {
    if m > 0 { NothingUp(links, m - 1); }
  }

  // ---------------------------------------------------------------- where a handshake can stand

  /** Node j consumed exactly its own request, and its key is bound to what the client will bind its own to. */
  ghost predicate Agreed(c: Exchange, p: Plan, session: Option<Session>, j: nat) {
    && j < |p.ports| == |p.privs|
    && session.Some?
    && var s := session.value;
    && s.request == RequestFor(c, p, j) && s.nodePub == c.pub(s.priv)
    && s.master == DeriveBound(c, s.priv, s.request.clientPub, s.request.clientPub, s.nodePub, p.ports[j], p.role)
  }

  /** The link below which hop i's frames travel in full, the first or the one before node i. */
  function Top(i: nat): nat { if i == 0 then 0 else i - 1 }

  /** The first i nodes have agreed; the last of them awaits a frame to forward, the ones before it pipe. */
  ghost predicate Settled(c: Exchange, p: Plan, sys: System, i: nat) {
    && Shaped(p, sys) && i <= |p.ports|
    && (forall j :: 0 <= j < i ==> Agreed(c, p, sys.nodes[j].session, j))
    && (forall j :: 0 <= j < i - 1 ==> sys.nodes[j].phase == Piping)
    && (i > 0 ==> sys.nodes[i - 1].phase == if i < |p.ports| then Reading else Last)
    && (forall j :: i <= j < |p.ports| ==> sys.nodes[j].phase == Fresh)
  }

  /** The same, but the last of them has forwarded a frame and awaits the answer. */
  ghost predicate Forwarded(c: Exchange, p: Plan, sys: System, i: nat) {
    && Shaped(p, sys) && 0 < i < |p.ports|
    && (forall j :: 0 <= j < i ==> Agreed(c, p, sys.nodes[j].session, j))
    && (forall j :: 0 <= j < i - 1 ==> sys.nodes[j].phase == Piping)
    && sys.nodes[i - 1].phase == Waiting
    && (forall j :: i < j < |p.ports| ==> sys.nodes[j].phase == Fresh)
  }

  /** Bytes that answer request i with the key node i has agreed. */
  ghost predicate IsReply(c: Exchange, p: Plan, sys: System, i: nat, b: Octets) {
    && Shaped(p, sys) && i < |p.ports|
    && sys.nodes[i].session.Some? && |b| == WIRE_PACKET_SIZE
    && Unframe(b, MAX_REPLY_BYTES).Some?
    && ReadDescriptor(c, Unframe(b, MAX_REPLY_BYTES).value) == Some(sys.nodes[i].session.value.nodePub)
  }

  ghost predicate Quiet(c: Exchange, p: Plan, sys: System) {
    !sys.sent && Settled(c, p, sys, sys.next) && EmptyFrom(sys.down, 0) && EmptyFrom(sys.up, 0)
  }

  /** The frame is somewhere between the client and the node that will forward it. */
  ghost predicate GoingDown(c: Exchange, p: Plan, sys: System) {
    Shaped(p, sys) && sys.next < |p.ports| &&
    var i := sys.next;
    && sys.sent && Settled(c, p, sys, i) && EmptyFrom(sys.up, 0)
    && FlowDown(sys.down, Top(i)) == FrameFor(c, p, i) && EmptyFrom(sys.down, Top(i) + 1)
  }

  /** The frame has been forwarded to its node. */
  ghost predicate AtNode(c: Exchange, p: Plan, sys: System) {
    Shaped(p, sys) && sys.next < |p.ports| &&
    var i := sys.next;
    && i > 0 && sys.sent && Forwarded(c, p, sys, i) && sys.nodes[i].phase == Fresh && EmptyFrom(sys.up, 0)
    && sys.down[i] == FrameFor(c, p, i) && EmptyBut(sys.down, i)
  }

  /** The node has answered to the one before it. */
  ghost predicate Answered(c: Exchange, p: Plan, sys: System) {
    Shaped(p, sys) && sys.next < |p.ports| &&
    var i := sys.next;
    && i > 0 && sys.sent && Forwarded(c, p, sys, i) && Agreed(c, p, sys.nodes[i].session, i)
    && sys.nodes[i].phase == (if i + 1 < |p.ports| then Reading else Last)
    && IsReply(c, p, sys, i, sys.up[i]) && EmptyBut(sys.up, i) && EmptyFrom(sys.down, 0)
  }

  /** The answer is somewhere between that node and the client. */
  ghost predicate GoingUp(c: Exchange, p: Plan, sys: System) {
    Shaped(p, sys) && sys.next < |p.ports| &&
    var i := sys.next;
    && sys.sent && Settled(c, p, sys, i + 1) && EmptyFrom(sys.down, 0)
    && IsReply(c, p, sys, i, FlowUp(sys.up, Top(i))) && EmptyFrom(sys.up, Top(i) + 1)
  }

  /** The client's keys so far are its nodes' keys. */
  ghost predicate SameKeys(p: Plan, sys: System) {
    && Shaped(p, sys)
    && sys.next <= |p.ports| && |sys.masters| == |sys.nodePubs| == sys.next && !sys.aborted
    && forall j :: 0 <= j < sys.next ==>
      && sys.nodes[j].session.Some?
      && sys.masters[j] == sys.nodes[j].session.value.master && sys.nodePubs[j] == sys.nodes[j].session.value.nodePub
  }

  ghost predicate Inv(c: Exchange, p: Plan, sys: System) {
    && PlanOk(p) && Shaped(p, sys) && SameKeys(p, sys)
    && (Quiet(c, p, sys) ||
        (sys.next < |p.ports| &&
         (GoingDown(c, p, sys) || AtNode(c, p, sys) || Answered(c, p, sys) || GoingUp(c, p, sys))))
  }

  // ---------------------------------------------------------------- every step

  lemma SendKeepsInv(c: Exchange, p: Plan, sys: System)
    requires Inv(c, p, sys) && Enabled(p, sys, Send)
    ensures Inv(c, p, Apply(c, p, sys, Send))
  {
    var next := Apply(c, p, sys, Send);
    assert next.down[0] == [] + FrameFor(c, p, sys.next) == FrameFor(c, p, sys.next);
    OnlyFirstDown(next.down, Top(sys.next));
    assert GoingDown(c, p, next);
  }

  lemma ReadRequest(c: Exchange, p: Plan, i: nat)
    requires i < |p.ports| == |p.privs| == |p.pads|
    ensures Unframe(FrameFor(c, p, i), REQUEST_BYTES) == Some(EncodeRequest(RequestFor(c, p, i)))
    ensures ParseRequest(EncodeRequest(RequestFor(c, p, i))) == Some(RequestFor(c, p, i))
  {
    FrameRoundTrip(EncodeRequest(RequestFor(c, p, i)), p.pads[i], REQUEST_BYTES);
    RequestRoundTrip(RequestFor(c, p, i));
  }

  /** What a node makes of the frame that was meant for it. */
  lemma AcceptsOwn(c: Exchange, p: Plan, sys: System, j: nat, pad: Pad)
    requires LawfulExchange(c) && PlanOk(p) && Shaped(p, sys) && j < |p.ports| && sys.down[j] == FrameFor(c, p, j)
    requires sys.up[j] == []
    ensures var next := Accepted(c, p, sys, j, pad);
      && Shaped(p, next) && Agreed(c, p, next.nodes[j].session, j) && IsReply(c, p, next, j, next.up[j])
      && next == sys.(nodes := sys.nodes[j := next.nodes[j]], down := sys.down[j := []], up := sys.up[j := next.up[j]])
      && next.nodes[j].phase == if j + 1 < |p.ports| then Reading else Last
  {
    ReadRequest(c, p, j);
    assert sys.down[j][..WIRE_PACKET_SIZE] == FrameFor(c, p, j) && sys.down[j][WIRE_PACKET_SIZE..] == [];
    var nodePub := c.pub(sys.nodes[j].priv);
    var reply := Frame(Descriptor(c, nodePub, sys.nodes[j].identity), pad);
    FrameRoundTrip(Descriptor(c, nodePub, sys.nodes[j].identity), pad, MAX_REPLY_BYTES);
    DescriptorRoundTrip(c, nodePub, sys.nodes[j].identity);
    assert [] + reply == reply;
  }

  /** Only the node whose turn it is has anything to read. */
  lemma AcceptIsNext(c: Exchange, p: Plan, sys: System, j: nat, pad: Pad)
    requires Inv(c, p, sys) && Enabled(p, sys, Accept(j, pad))
    ensures j == sys.next < |p.ports| && sys.down[j] == FrameFor(c, p, j) && sys.up[j] == []
    ensures if j == 0 then GoingDown(c, p, sys) else AtNode(c, p, sys)
  {
  }

  lemma AcceptFirst(c: Exchange, p: Plan, sys: System, pad: Pad)
    requires LawfulExchange(c) && PlanOk(p) && Shaped(p, sys) && sys.next == 0 && GoingDown(c, p, sys)
    ensures var next := Accepted(c, p, sys, 0, pad); Shaped(p, next) && GoingUp(c, p, next)
  {
    AcceptsOwn(c, p, sys, 0, pad);
  }

  lemma AcceptLater(c: Exchange, p: Plan, sys: System, pad: Pad)
    requires LawfulExchange(c) && PlanOk(p) && Shaped(p, sys) && sys.next < |p.ports| && AtNode(c, p, sys)
    ensures var next := Accepted(c, p, sys, sys.next, pad);
      Shaped(p, next) && next.next == sys.next && Answered(c, p, next)
  {
    AcceptsOwn(c, p, sys, sys.next, pad);
  }

  lemma AcceptKeepsKeys(c: Exchange, p: Plan, sys: System, pad: Pad)
    requires LawfulExchange(c) && PlanOk(p) && Shaped(p, sys) && SameKeys(p, sys) && sys.next < |p.ports|
    requires sys.down[sys.next] == FrameFor(c, p, sys.next) && sys.up[sys.next] == []
    ensures var next := Accepted(c, p, sys, sys.next, pad);
      Shaped(p, next) && next.next == sys.next && SameKeys(p, next)
  {
    AcceptsOwn(c, p, sys, sys.next, pad);
  }

  lemma AcceptKeepsInv(c: Exchange, p: Plan, sys: System, j: nat, pad: Pad)
    requires LawfulExchange(c) && Inv(c, p, sys) && Enabled(p, sys, Accept(j, pad))
    ensures Inv(c, p, Apply(c, p, sys, Accept(j, pad)))
  {
    AcceptIsNext(c, p, sys, j, pad);
    AcceptKeepsKeys(c, p, sys, pad);
    if j == 0 { AcceptFirst(c, p, sys, pad); } else { AcceptLater(c, p, sys, pad); }
  }

  lemma RelayKeepsInv(c: Exchange, p: Plan, sys: System, j: nat)
    requires Inv(c, p, sys) && Enabled(p, sys, Relay(j))
    ensures Inv(c, p, Apply(c, p, sys, Relay(j)))
  {
    var next, i := Apply(c, p, sys, Relay(j)), sys.next;
    assert GoingDown(c, p, sys) && j == i - 1;
    AllOnOneDown(sys.down, Top(i), j);
    MoveWhole(sys.down, j, i);
    assert AtNode(c, p, next);
  }

  lemma AnswerPassedOn(c: Exchange, p: Plan, sys: System)
    requires PlanOk(p) && Shaped(p, sys) && sys.next < |p.ports| && Answered(c, p, sys)
    ensures var i := sys.next;
      var next := sys.(up := Move(sys.up, i, i - 1, WIRE_PACKET_SIZE),
                       nodes := sys.nodes[i - 1 := sys.nodes[i - 1].(phase := Piping)]);
      Shaped(p, next) && GoingUp(c, p, next)
  {
    var i := sys.next;
    var up := Move(sys.up, i, i - 1, WIRE_PACKET_SIZE);
    MoveWhole(sys.up, i, i - 1);
    OnlyLastUp(up, Top(i));
  }

  lemma RelayReplyKeepsInv(c: Exchange, p: Plan, sys: System, j: nat)
    requires Inv(c, p, sys) && Enabled(p, sys, RelayReply(j))
    ensures Inv(c, p, Apply(c, p, sys, RelayReply(j)))
  {
    assert Answered(c, p, sys) && j == sys.next - 1;
    AnswerPassedOn(c, p, sys);
  }

  lemma PipeDownKeepsInv(c: Exchange, p: Plan, sys: System, j: nat, k: nat)
    requires Inv(c, p, sys) && Enabled(p, sys, PipeDown(j, k))
    ensures Inv(c, p, Apply(c, p, sys, PipeDown(j, k)))
  {
    assert GoingDown(c, p, sys) && j + 1 <= Top(sys.next);
    PipeDownKeepsFlow(sys.down, j, k, Top(sys.next));
    assert GoingDown(c, p, Apply(c, p, sys, PipeDown(j, k)));
  }

  lemma PipeUpKeepsInv(c: Exchange, p: Plan, sys: System, j: nat, k: nat)
    requires Inv(c, p, sys) && Enabled(p, sys, PipeUp(j, k))
    ensures Inv(c, p, Apply(c, p, sys, PipeUp(j, k)))
  {
    assert GoingUp(c, p, sys) && j + 1 <= Top(sys.next);
    PipeUpKeepsFlow(sys.up, j, k, Top(sys.next));
    assert GoingUp(c, p, Apply(c, p, sys, PipeUp(j, k)));
  }

  lemma ReceiveIsReply(c: Exchange, p: Plan, sys: System)
    requires Inv(c, p, sys) && Enabled(p, sys, Receive)
    ensures sys.next < |p.ports| && Settled(c, p, sys, sys.next + 1) && EmptyFrom(sys.down, 0)
    ensures IsReply(c, p, sys, sys.next, sys.up[0]) && EmptyFrom(sys.up, 1)
  {
    AllOnFirstUp(sys.up, Top(sys.next));
  }

  /** The client after it has taken node i's answer. */
  function Taken(sys: System, s: Session): System
    requires |sys.up| > 0
  {
    sys.(next := sys.next + 1, sent := false, masters := sys.masters + [s.master],
         nodePubs := sys.nodePubs + [s.nodePub],
         up := sys.up[0 := []])
  }

  /** The client reads the node's key out of the answer and arrives at the node's master. */
  lemma ReceiveReads(c: Exchange, p: Plan, sys: System)
    requires LawfulExchange(c) && Shaped(p, sys) && sys.next < |p.ports|
    requires Agreed(c, p, sys.nodes[sys.next].session, sys.next) && IsReply(c, p, sys, sys.next, sys.up[0])
    ensures Received(c, p, sys) == Taken(sys, sys.nodes[sys.next].session.value)
  {
    assert sys.up[0][..WIRE_PACKET_SIZE] == sys.up[0] && sys.up[0][WIRE_PACKET_SIZE..] == [];
  }

  lemma TakenIsQuiet(c: Exchange, p: Plan, sys: System, s: Session)
    requires Shaped(p, sys) && Settled(c, p, sys, sys.next + 1) && EmptyFrom(sys.down, 0) && EmptyFrom(sys.up, 1)
    ensures Quiet(c, p, Taken(sys, s))
  {
  }

  lemma TakenHasSameKeys(p: Plan, sys: System)
    requires SameKeys(p, sys) && sys.next < |p.ports| && sys.nodes[sys.next].session.Some?
    ensures SameKeys(p, Taken(sys, sys.nodes[sys.next].session.value))
  {
  }

  lemma ReceiveKeepsInv(c: Exchange, p: Plan, sys: System)
    requires LawfulExchange(c) && Inv(c, p, sys) && Enabled(p, sys, Receive)
    ensures Inv(c, p, Apply(c, p, sys, Receive))
  {
    ReceiveIsReply(c, p, sys);
    assert Agreed(c, p, sys.nodes[sys.next].session, sys.next);
    ReceiveReads(c, p, sys);
    TakenIsQuiet(c, p, sys, sys.nodes[sys.next].session.value);
    TakenHasSameKeys(p, sys);
  }

  /** Nothing a handshake depends on is in a node's present key pair. */
  lemma RotateKeepsStage(c: Exchange, p: Plan, sys: System, next: System)
    requires Shaped(p, sys) && sys.next <= |p.ports| && |next.nodes| == |sys.nodes| && next == sys.(nodes := next.nodes)
    requires forall i :: 0 <= i < |p.ports| ==>
      next.nodes[i].session == sys.nodes[i].session && next.nodes[i].phase == sys.nodes[i].phase
    ensures Quiet(c, p, sys) ==> Quiet(c, p, next)
    ensures sys.next < |p.ports| && GoingDown(c, p, sys) ==> GoingDown(c, p, next)
    ensures sys.next < |p.ports| && GoingUp(c, p, sys) ==> GoingUp(c, p, next)
  {
  }

  lemma RotateKeepsStageBelow(c: Exchange, p: Plan, sys: System, next: System)
    requires Shaped(p, sys) && sys.next < |p.ports| && |next.nodes| == |sys.nodes| && next == sys.(nodes := next.nodes)
    requires forall i :: 0 <= i < |p.ports| ==>
      next.nodes[i].session == sys.nodes[i].session && next.nodes[i].phase == sys.nodes[i].phase
    ensures AtNode(c, p, sys) ==> AtNode(c, p, next)
    ensures Answered(c, p, sys) ==> Answered(c, p, next)
  {
  }

  lemma RotateKeepsInv(c: Exchange, p: Plan, sys: System, j: nat, priv: Priv)
    requires Inv(c, p, sys) && Enabled(p, sys, Rotate(j, priv))
    ensures Inv(c, p, Apply(c, p, sys, Rotate(j, priv)))
  {
    var next := Apply(c, p, sys, Rotate(j, priv));
    RotateKeepsStage(c, p, sys, next);
    if sys.next < |p.ports| { RotateKeepsStageBelow(c, p, sys, next); }
  }

  lemma StepKeepsInv(c: Exchange, p: Plan, sys: System, step: Step)
    requires LawfulExchange(c) && Inv(c, p, sys)
    ensures Inv(c, p, Apply(c, p, sys, step))
  {
    if Enabled(p, sys, step) {
      match step
      case Send => SendKeepsInv(c, p, sys);
      case Receive => ReceiveKeepsInv(c, p, sys);
      case Accept(j, pad) => AcceptKeepsInv(c, p, sys, j, pad);
      case Relay(j) => RelayKeepsInv(c, p, sys, j);
      case RelayReply(j) => RelayReplyKeepsInv(c, p, sys, j);
      case PipeDown(j, k) => PipeDownKeepsInv(c, p, sys, j, k);
      case PipeUp(j, k) => PipeUpKeepsInv(c, p, sys, j, k);
      case Rotate(j, priv) => RotateKeepsInv(c, p, sys, j, priv);
    }
  }

  // ---------------------------------------------------------------- every run

  ghost predicate AllFresh(nodes: seq<Node>) {
    forall j :: 0 <= j < |nodes| ==> nodes[j].phase == Fresh && nodes[j].session == None
  }

  lemma {:induction false} RunKeepsInv(c: Exchange, p: Plan, nodes: seq<Node>, steps: seq<Step>)
    requires LawfulExchange(c) && PlanOk(p) && |nodes| == |p.ports| && AllFresh(nodes)
    ensures Inv(c, p, Run(c, p, nodes, steps))
  {
    if |steps| == 0 {
      assert Quiet(c, p, Start(nodes));
    } else {
      RunKeepsInv(c, p, nodes, steps[..|steps| - 1]);
      StepKeepsInv(c, p, Run(c, p, nodes, steps[..|steps| - 1]), steps[|steps| - 1]);
    }
  }

  /**
   Whenever the client has completed hop j, node j has consumed exactly the request meant for it and
   holds the client's key, bound to the same two public keys, port and role; in whatever order nodes
   act, however the pipes chunk, and whenever key pairs are replaced.
   */
  lemma HopsAgree(c: Exchange, p: Plan, nodes: seq<Node>, steps: seq<Step>, j: nat)
    requires LawfulExchange(c) && PlanOk(p) && |nodes| == |p.ports| && AllFresh(nodes)
    requires j < Run(c, p, nodes, steps).next
    ensures var sys := Run(c, p, nodes, steps);
      && j < |sys.nodes| == |p.ports| && j < |sys.masters| && j < |sys.nodePubs| && sys.nodes[j].session.Some?
      && var s := sys.nodes[j].session.value;
      && s.request == Request(p.role, if j + 1 < |p.ports| then p.ports[j + 1] else 0, c.pub(p.privs[j]))
      && s.nodePub == sys.nodePubs[j] && s.master == sys.masters[j]
      && s.master == DeriveBound(c, p.privs[j], s.nodePub, c.pub(p.privs[j]), s.nodePub, p.ports[j], p.role)
  {
    RunKeepsInv(c, p, nodes, steps);
    assert Agreed(c, p, Run(c, p, nodes, steps).nodes[j].session, j);
  }

  /** Some step other than a rotation can be taken. */
  ghost predicate CanMove(p: Plan, sys: System) {
    exists step :: Enabled(p, sys, step) && !step.Rotate?
  }

  lemma DownMoves(c: Exchange, p: Plan, sys: System)
    requires PlanOk(p) && GoingDown(c, p, sys)
    ensures CanMove(p, sys)
  {
    var i := sys.next;
    if j: nat :| j < Top(i) && sys.down[j] != [] {
      assert Enabled(p, sys, PipeDown(j, 1));
    } else {
      NothingBelow(sys.down, Top(i));
      if i == 0 {
        assert Enabled(p, sys, Accept(0, Zeros(WIRE_PACKET_SIZE)));
      } else {
        assert Agreed(c, p, sys.nodes[i - 1].session, i - 1);
        assert Enabled(p, sys, Relay(i - 1));
      }
    }
  }

  lemma UpMoves(c: Exchange, p: Plan, sys: System)
    requires GoingUp(c, p, sys) && !sys.aborted
    ensures CanMove(p, sys)
  {
    if j: nat :| 0 < j <= Top(sys.next) && sys.up[j] != [] {
      assert Enabled(p, sys, PipeUp(j - 1, 1));
    } else {
      NothingAbove(sys.up, Top(sys.next));
      assert Enabled(p, sys, Receive);
    }
  }

  /** The handshake never gets stuck: until the last key is agreed some step other than a rotation can be taken. */
  lemma NeverStuck(c: Exchange, p: Plan, sys: System)
    requires Inv(c, p, sys) && sys.next < |p.ports|
    ensures CanMove(p, sys)
  {
    if Quiet(c, p, sys) {
      assert Enabled(p, sys, Send);
    } else if GoingDown(c, p, sys) {
      DownMoves(c, p, sys);
    } else if AtNode(c, p, sys) {
      assert Enabled(p, sys, Accept(sys.next, Zeros(WIRE_PACKET_SIZE)));
    } else if Answered(c, p, sys) {
      assert Enabled(p, sys, RelayReply(sys.next - 1));
    } else {
      UpMoves(c, p, sys);
    }
  }

  lemma {:induction false} NothingBelow(links: seq<Octets>, m: nat)
    requires m < |links| && forall j :: 0 <= j < m ==> links[j] == []
    ensures FlowDown(links, m) == links[m]
  {
    if m > 0 { NothingBelow(links, m - 1); }
  }

  lemma {:induction false} NothingAbove(links: seq<Octets>, m: nat)
    requires m < |links| && forall j :: 0 < j <= m ==> links[j] == []
    ensures FlowUp(links, m) == links[0]
  {
    if m > 0 { NothingAbove(links, m - 1); }
  }
}
