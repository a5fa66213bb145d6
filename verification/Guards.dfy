// Path facts and the required-guard analysis
// (pktbaffle/src/codegen.rs:141-407).

module Guards {
  import opened Words
  import opened Ast
  import opened Meaning
  import Bpf

  // ----- protocol sets -----

  predicate SubsetOf(a: L4Set, b: L4Set) {
    match (a, b)
    case (One(n), _) => Contains(b, n)
    case (TcpOrUdp, TcpOrUdp) => true
    case (TcpOrUdp, One(_)) => false
  }

  function Join(a: L4Set, b: L4Set): Option<L4Set> {
    if a == b then Some(a)
    else if SubsetOf(a, TcpOrUdp) && SubsetOf(b, TcpOrUdp) then Some(TcpOrUdp)
    else None
  }

  /** `subset_of` is inclusion, and `join` is the least representable upper
      bound when there is one. */
  lemma L4SetsFormAnOrder(a: L4Set, b: L4Set, c: L4Set)
    ensures SubsetOf(a, b) <==> forall p: u8 :: Contains(a, p) ==> Contains(b, p)
    ensures Join(a, b).Some? ==> SubsetOf(a, Join(a, b).value) && SubsetOf(b, Join(a, b).value)
    ensures SubsetOf(a, c) && SubsetOf(b, c) ==> Join(a, b).Some? && SubsetOf(Join(a, b).value, c)
  {
    assert Contains(TcpOrUdp, 6) && Contains(TcpOrUdp, 17);
    if a.One? { assert Contains(a, a.n); }
  }

  // ----- path facts -----

  datatype Facts = Facts(
    ethertype: Option<u32>,
    ip4Proto: Option<u8>,
    ip6Next: Option<u8>,
    portsReady: Option<L4Set>)

  function Agreed<T(==)>(x: Option<T>, y: Option<T>): Option<T> {
    if x == y then x else None
  }

  /** Facts valid where two paths join. */
  function MeetFacts(a: Facts, b: Facts): Facts {
    Facts(Agreed(a.ethertype, b.ethertype), Agreed(a.ip4Proto, b.ip4Proto), Agreed(a.ip6Next, b.ip6Next),
          if a.portsReady.Some? && b.portsReady.Some? then Join(a.portsReady.value, b.portsReady.value) else None)
  }

  /** The initial facts: raw IP frames are IPv4 without a check. */
  function InitialFacts(link: LinkType): Facts {
    Facts(if link.RawIp? then Some(0x0800) else None, None, None, None)
  }

  /** Ports are readable with X holding the transport offset. */
  predicate PortsAt(lay: Layout, s: L4Set, pkt: Packet, x: u32) {
    || (Eval(Ports4(lay, s), pkt) == True && Read(HeaderLength(lay), pkt) == Some(x))
    || (Eval(Ports6(lay, s), pkt) == True && x == 40)
  }

  /** `4 * IHL`, as the pseudo-field the prologue puts into X. */
  function HeaderLength(lay: Layout): Field {
    HeaderLen(Off(NetAt(lay)))
  }

  /** Where the frame has type `et`, the byte `off` into its network header is
      `n`. */
  predicate ByteIs(lay: Layout, et: u32, off: nat, n: u8, pkt: Packet) {
    Eval(EthIs(lay, et), pkt) == True ==> Eval(FieldIs(Bpf.SizeB, NetAt(lay) + off, n), pkt) == True
  }

  /** ... read here and, from outside a tag, also behind it: facts are not kept
      apart by tag depth. */
  predicate ByteKnown(lay: Layout, et: u32, off: nat, n: u8, pkt: Packet) {
    && ByteIs(lay, et, off, n, pkt)
    && (lay.depth == 0 && Eval(EthIs(lay, 0x8100), pkt) == True ==> ByteIs(Tagged(lay), et, off, n, pkt))
  }

  /** What the recorded facts claim about the packet and X. Behind a matched
      tag the recorded outer ethertype 0x8100 claims nothing any more. */
  predicate FactsHold(lay: Layout, f: Facts, pkt: Packet, x: u32) {
    && (f.ethertype.Some? ==>
          || Eval(EthIs(lay, f.ethertype.value), pkt) == True
          || (lay.depth > 0 && f.ethertype.value == 0x8100))
    && (f.ip4Proto.Some? ==> ByteKnown(lay, 0x0800, 9, f.ip4Proto.value, pkt))
    && (f.ip6Next.Some? ==> ByteKnown(lay, 0x86dd, 6, f.ip6Next.value, pkt))
    && (f.portsReady.Some? ==> PortsAt(lay, f.portsReady.value, pkt, x))
  }

  /** A frame has one type. */
  lemma OneType(lay: Layout, a: u32, b: u32, pkt: Packet)
    requires Eval(EthIs(lay, a), pkt) == True && Eval(EthIs(lay, b), pkt) == True
    ensures a == b
  {
  }

  predicate IsTagged(lay: Layout, pkt: Packet) { Eval(EthIs(lay, 0x8100), pkt) == True }

  lemma ByteRecorded(lay: Layout, et: u32, off: nat, n: u8, pkt: Packet)
    requires et != 0x8100 && Eval(EthIs(lay, et), pkt) == True
    requires Eval(FieldIs(Bpf.SizeB, NetAt(lay) + off, n), pkt) == True
    ensures ByteKnown(lay, et, off, n, pkt)
  {
    if Eval(EthIs(lay, 0x8100), pkt) == True { OneType(lay, et, 0x8100, pkt); }
  }

  /** X only matters to `ports_ready`. */
  lemma FactsWithoutX(lay: Layout, f: Facts, pkt: Packet, x: u32, y: u32)
    requires FactsHold(lay, f, pkt, x)
    ensures FactsHold(lay, f.(portsReady := None), pkt, y)
  {
  }

  lemma ByteInWider(at: nat, a: L4Set, b: L4Set, pkt: Packet)
    requires SubsetOf(a, b) && Eval(ByteIn(at, a), pkt) == True
    ensures Eval(ByteIn(at, b), pkt) == True
  {
  }

  lemma Ports4Parts(lay: Layout, s: L4Set, pkt: Packet)
    ensures Eval(Ports4(lay, s), pkt) ==
            And3(Eval(EthIs(lay, 0x0800), pkt),
                 And3(Eval(ByteIn(NetAt(lay) + 9, s), pkt), Eval(FirstFragment(lay), pkt)))
  {
    var inner := Both(ByteIn(NetAt(lay) + 9, s), FirstFragment(lay));
    assert Eval(inner, pkt) == And3(Eval(ByteIn(NetAt(lay) + 9, s), pkt), Eval(FirstFragment(lay), pkt));
  }

  lemma Ports6Parts(lay: Layout, s: L4Set, pkt: Packet)
    ensures Eval(Ports6(lay, s), pkt) ==
            And3(Eval(EthIs(lay, 0x86dd), pkt), Eval(ByteIn(NetAt(lay) + 6, s), pkt))
  {
  }

  lemma PortsAtWider(lay: Layout, a: L4Set, b: L4Set, pkt: Packet, x: u32)
    requires SubsetOf(a, b) && PortsAt(lay, a, pkt, x)
    ensures PortsAt(lay, b, pkt, x)
  {
    if Eval(Ports4(lay, a), pkt) == True && Read(HeaderLength(lay), pkt) == Some(x) {
      Ports4Parts(lay, a, pkt);
      Ports4Parts(lay, b, pkt);
      ByteInWider(NetAt(lay) + 9, a, b, pkt);
    } else {
      Ports6Parts(lay, a, pkt);
      Ports6Parts(lay, b, pkt);
      ByteInWider(NetAt(lay) + 6, a, b, pkt);
    }
  }

  /** The joined facts hold on either path into a join. */
  lemma MeetIsSound(lay: Layout, a: Facts, b: Facts, pkt: Packet, x: u32)
    requires FactsHold(lay, a, pkt, x) || FactsHold(lay, b, pkt, x)
    ensures FactsHold(lay, MeetFacts(a, b), pkt, x)
  {
    var m := MeetFacts(a, b);
    if m.portsReady.Some? {
      L4SetsFormAnOrder(a.portsReady.value, b.portsReady.value, m.portsReady.value);
      if FactsHold(lay, a, pkt, x) {
        PortsAtWider(lay, a.portsReady.value, m.portsReady.value, pkt, x);
      } else {
        PortsAtWider(lay, b.portsReady.value, m.portsReady.value, pkt, x);
      }
    }
  }

  // ----- required guards -----

  datatype GuardSet = GuardSet(
    ethertype: Option<u32>,
    ip4Proto: Option<u8>,
    ip6Next: Option<u8>,
    portPrereqs: Option<L4Set>)

  const NO_GUARDS: GuardSet := GuardSet(None, None, None, None)

  function OrElse<T>(x: Option<T>, y: Option<T>): Option<T> { if x.Some? then x else y }

  /** Required by a conjunction; on a conflict the left value is kept. */
  function Union(a: GuardSet, b: GuardSet): GuardSet {
    GuardSet(OrElse(a.ethertype, b.ethertype), OrElse(a.ip4Proto, b.ip4Proto),
             OrElse(a.ip6Next, b.ip6Next), OrElse(a.portPrereqs, b.portPrereqs))
  }

  /** Required by a disjunction: only what both sides require. */
  function Intersect(a: GuardSet, b: GuardSet): GuardSet {
    GuardSet(Agreed(a.ethertype, b.ethertype), Agreed(a.ip4Proto, b.ip4Proto),
             Agreed(a.ip6Next, b.ip6Next), Agreed(a.portPrereqs, b.portPrereqs))
  }

  function EthGuard(et: u32): GuardSet { NO_GUARDS.(ethertype := Some(et)) }

  function Ip4Guard(n: u8): GuardSet { GuardSet(Some(0x0800), Some(n), None, None) }

  function Ip6Guard(n: u8): GuardSet { GuardSet(Some(0x86dd), None, Some(n), None) }

  function ProtoGuards(p: Proto): GuardSet {
    match p
    case Ip => EthGuard(0x0800)
    case Ip6 => EthGuard(0x86dd)
    case Arp => EthGuard(0x0806)
    case Rarp => EthGuard(0x8035)
    case Tcp => Ip4Guard(6)
    case Udp => Ip4Guard(17)
    case Icmp => Ip4Guard(1)
    case Igmp => Ip4Guard(2)
    case Sctp => Ip4Guard(132)
    case Num(n) => Ip4Guard(n)
    case Icmp6 => Ip6Guard(58)
    case Ip6Proto(n) => Ip6Guard(n)
  }

  function PrimGuards(p: Primitive): GuardSet {
    match p
    case IsProto(pr) => ProtoGuards(pr)
    case Host4(_, _) => EthGuard(0x0800)
    case Host6(_, _) => EthGuard(0x86dd)
    case Network(_, _, _) => EthGuard(0x0800)
    case IpBroadcast => EthGuard(0x0800)
    case IpMulticast => EthGuard(0x0800)
    case Network6(_, _, _) => EthGuard(0x86dd)
    case Ip6Multicast => EthGuard(0x86dd)
    case Port(_, _, proto) => NO_GUARDS.(portPrereqs := L4SetFor(proto))
    case PortRange(_, _, _, proto) => NO_GUARDS.(portPrereqs := L4SetFor(proto))
    case EtherProto(et) => EthGuard(et)
    case Vlan(_) => EthGuard(0x8100)
    case PppoeDiscovery => EthGuard(0x8863)
    case PppoeSession(_) => EthGuard(0x8864)
    case IpProtoChain(n) => Ip4Guard(n)
    case Ip6ProtoChain(n) => Ip6Guard(n)
    case _ => NO_GUARDS
  }

  /** The recursive definition the memoised walk must agree with. */
  function Required(e: Expr): GuardSet {
    match e
    case Prim(p) => PrimGuards(p)
    case And(l, r) => Union(Required(l), Required(r))
    case Or(l, r) => Intersect(Required(l), Required(r))
    case Not(_) => NO_GUARDS
  }

  /** What it means for a packet to satisfy a guard set: exactly the checks
      that hoisting emits for it. */
  predicate GuardsHold(lay: Layout, g: GuardSet, pkt: Packet) {
    && (g.ethertype.Some? ==> Sat(EthIs(lay, g.ethertype.value), pkt))
    && (g.ip4Proto.Some? ==> Sat(Ip4ProtoIs(lay, g.ip4Proto.value), pkt))
    && (g.ip6Next.Some? ==> Sat(Ip6NextIs(lay, g.ip6Next.value), pkt))
    && (g.portPrereqs.Some? ==> Sat(HasPorts(lay, g.portPrereqs.value), pkt))
  }

  lemma PortTestNeedsPorts(lay: Layout, s: L4Set, dir: Dir, t: Field -> Formula, pkt: Packet)
    requires Sat(OnPorts(lay, s, dir, t), pkt)
    ensures Sat(HasPorts(lay, s), pkt)
  {
    var six := Both(Ports6(lay, s), ByDir(dir, t(PortField(lay, true, false)), t(PortField(lay, true, true))));
    var four := Both(Ports4(lay, s), ByDir(dir, t(PortField(lay, false, false)), t(PortField(lay, false, true))));
    assert OnPorts(lay, s, dir, t) == Either(six, four);
    assert Sat(six, pkt) ==> Sat(Ports6(lay, s), pkt);
    assert Sat(four, pkt) ==> Sat(Ports4(lay, s), pkt);
  }

  lemma ProtoGuardsAreSound(lay: Layout, p: Proto, pkt: Packet)
    requires Sat(ProtoFormula(lay, p), pkt)
    ensures GuardsHold(lay, ProtoGuards(p), pkt)
  {
  }

  lemma PrimGuardsAreSound(lay: Layout, p: Primitive, pkt: Packet)
    requires Sat(PrimFormula(lay, p), pkt)
    ensures GuardsHold(lay, PrimGuards(p), pkt)
  {
    if p.Port? && L4SetFor(p.proto).Some? {
      PortTestNeedsPorts(lay, L4SetFor(p.proto).value, p.dir, f => PortIs(f, p.port), pkt);
    } else if p.PortRange? && L4SetFor(p.proto).Some? {
      PortTestNeedsPorts(lay, L4SetFor(p.proto).value, p.dir, f => PortIn(f, p.lo, p.hi), pkt);
    } else if p.IsProto? {
      ProtoGuardsAreSound(lay, p.p, pkt);
    } else {
      var g := PrimGuards(p);
      assert g.ethertype.Some? ==> Sat(EthIs(lay, g.ethertype.value), pkt);
    }
  }

  /** A packet an expression accepts satisfies every guard it requires. */
  lemma {:induction false} GuardsAreSound(e: Expr, lay: Layout, pkt: Packet)
    requires NoShift(e) && Matches(e, lay, pkt)
    ensures GuardsHold(lay, Required(e), pkt)
  {
    match e
    case Prim(p) => PrimGuardsAreSound(lay, p, pkt);
    case And(l, r) =>
      GuardsAreSound(l, lay, pkt);
      GuardsAreSound(r, lay, pkt);
    case Or(l, r) =>
      if Matches(l, lay, pkt) { GuardsAreSound(l, lay, pkt); } else { GuardsAreSound(r, lay, pkt); }
    case Not(_) =>
  }

  lemma {:induction false} LeadingTypeRequired(e: Expr)
    requires LeadingVlan(e)
    ensures Required(e).ethertype == Some(0x8100)
  {
    if e.And? { LeadingTypeRequired(e.left); }
  }

  /** The required ethertype is always that of the outermost header. */
  lemma {:induction false} TypeGuardIsSound(e: Expr, lay: Layout, pkt: Packet)
    requires Matches(e, lay, pkt) && Required(e).ethertype.Some?
    ensures Sat(EthIs(lay, Required(e).ethertype.value), pkt)
  {
    match e
    case Prim(p) => PrimGuardsAreSound(lay, p, pkt);
    case And(l, r) =>
      if LeadingVlan(l) { LeadingTypeRequired(l); }
      if Required(l).ethertype.Some? { TypeGuardIsSound(l, lay, pkt); } else { TypeGuardIsSound(r, lay, pkt); }
    case Or(l, r) =>
      if Matches(l, lay, pkt) { TypeGuardIsSound(l, lay, pkt); } else { TypeGuardIsSound(r, lay, pkt); }
  }

  /** Putting the shared guards in front of an `or` does not change it. */
  lemma {:induction false} HoistingIsSound(l: Expr, r: Expr, lay: Layout, pkt: Packet)
    requires NoShift(l) && NoShift(r)
    ensures Matches(Or(l, r), lay, pkt) <==>
            GuardsHold(lay, Intersect(Required(l), Required(r)), pkt) && Matches(Or(l, r), lay, pkt)
  {
    if Matches(Or(l, r), lay, pkt) {
      assert Required(Or(l, r)) == Intersect(Required(l), Required(r));
      GuardsAreSound(Or(l, r), lay, pkt);
    }
  }

  // ----- the memoised walk -----

  /** Guard sets of nodes already computed. */
  type Memo = map<Expr, GuardSet>

  ghost predicate MemoRight(m: Memo) {
    forall e :: e in m ==> m[e] == Required(e)
  }

  datatype GuardStep = Visit(e: Expr) | Combine(e: Expr)

  /** What remains to be done, run to the end on the results so far. */
  ghost function Finish(todo: seq<GuardStep>, done: seq<GuardSet>): Option<seq<GuardSet>>
    decreases |todo|
  {
    if todo == [] then Some(done)
    else
      var rest := todo[..|todo| - 1];
      match todo[|todo| - 1]
      case Visit(e) => Finish(rest, done + [Required(e)])
      case Combine(e) =>
        if |done| < 2 then None
        else
          var l, r := done[|done| - 2], done[|done| - 1];
          Finish(rest, done[..|done| - 2] + [if e.And? then Union(l, r) else Intersect(l, r)])
  }

  function StepSize(s: GuardStep): nat { if s.Visit? then 1 + ExprSize(s.e) else 1 }

  function TodoSize(todo: seq<GuardStep>): nat {
    if todo == [] then 0 else TodoSize(todo[..|todo| - 1]) + StepSize(todo[|todo| - 1])
  }

  /** Each pending `Combine` is for an `And` or `Or` whose operands come last. */
  ghost predicate CombinesRight(todo: seq<GuardStep>, done: seq<GuardSet>)
    decreases |todo|
  {
    todo == [] ||
    var rest := todo[..|todo| - 1];
    match todo[|todo| - 1]
    case Visit(e) => CombinesRight(rest, done + [Required(e)])
    case Combine(e) =>
      && (e.And? || e.Or?)
      && |done| >= 2 && done[|done| - 2] == Required(e.left) && done[|done| - 1] == Required(e.right)
      && CombinesRight(rest, done[..|done| - 2] + [Required(e)])
  }

  lemma {:induction false} FinishVisit(rest: seq<GuardStep>, e: Expr, done: seq<GuardSet>)
    ensures var todo := rest + [Visit(e)];
            && Finish(todo, done) == Finish(rest, done + [Required(e)])
            && (CombinesRight(todo, done) <==> CombinesRight(rest, done + [Required(e)]))
            && TodoSize(todo) == TodoSize(rest) + 1 + ExprSize(e)
  {
    assert (rest + [Visit(e)])[..|rest|] == rest;
  }

  lemma {:induction false} FinishCombine(rest: seq<GuardStep>, e: Expr, done: seq<GuardSet>)
    requires e.And? || e.Or?
    ensures var todo, both := rest + [Combine(e)], done + [Required(e.left)] + [Required(e.right)];
            && Finish(todo, both) == Finish(rest, done + [Required(e)])
            && (CombinesRight(todo, both) <==> CombinesRight(rest, done + [Required(e)]))
            && TodoSize(todo) == TodoSize(rest) + 1
  {
    var both := done + [Required(e.left)] + [Required(e.right)];
    assert (rest + [Combine(e)])[..|rest|] == rest && both[..|both| - 2] == done;
  }

  lemma {:induction false} VisitOperands(rest: seq<GuardStep>, e: Expr, done: seq<GuardSet>)
    requires e.And? || e.Or?
    requires CombinesRight(rest, done + [Required(e)])
    ensures var todo := rest + [Combine(e), Visit(e.right), Visit(e.left)];
            && CombinesRight(todo, done)
            && Finish(todo, done) == Finish(rest, done + [Required(e)])
            && TodoSize(todo) < TodoSize(rest + [Visit(e)])
  {
    var t1 := rest + [Combine(e)];
    var t2 := t1 + [Visit(e.right)];
    assert rest + [Combine(e), Visit(e.right), Visit(e.left)] == t2 + [Visit(e.left)];
    FinishCombine(rest, e, done);
    FinishVisit(t1, e.right, done + [Required(e.left)]);
    FinishVisit(t2, e.left, done);
    FinishVisit(rest, e, done);
  }

  /** `required_guards`: post-order with an explicit stack and a cache; equal to
      the recursive definition, and the cache stays right. */
  method RequiredGuards(expr: Expr, memo: Memo) returns (g: GuardSet, memo': Memo)
    requires MemoRight(memo)
    ensures g == Required(expr)
    ensures MemoRight(memo') && memo.Keys <= memo'.Keys
  {
    var todo := [Visit(expr)];
    var done: seq<GuardSet> := [];
    memo' := memo;
    assert Finish(todo, done) == Some([Required(expr)]) && CombinesRight(todo, done) by {
      assert todo[..0] == [] && done + [Required(expr)] == [Required(expr)];
    }
    while todo != []
      invariant MemoRight(memo') && memo.Keys <= memo'.Keys
      invariant CombinesRight(todo, done)
      invariant Finish(todo, done) == Some([Required(expr)])
      decreases TodoSize(todo)
    {
      var step := todo[|todo| - 1];
      var rest := todo[..|todo| - 1];
      assert todo == rest + [step];
      match step {
        case Visit(e) =>
          if e in memo' {
            done := done + [memo'[e]];
            todo := rest;
          } else if e.And? || e.Or? {
            VisitOperands(rest, e, done);
            todo := rest + [Combine(e), Visit(e.right), Visit(e.left)];
          } else {
            done := done + [if e.Not? then NO_GUARDS else PrimGuards(e.p)];
            todo := rest;
          }
        case Combine(e) =>
          var l, r := done[|done| - 2], done[|done| - 1];
          var both := if e.And? then Union(l, r) else Intersect(l, r);
          memo' := memo'[e := both];
          done := done[..|done| - 2] + [both];
          todo := rest;
      }
    }
    return done[|done| - 1], memo';
  }
}
