/**
 * Compiling per-child policy to an iptables chain (internal/firewall/rules.go and enforcer.go).
 * All iptables commands are assumed to succeed.
 */
module Firewall {
  import opened Common

  /** How iptables reads an address specification (a host or a network) against a packet's address. */
  type Matcher = (string, string) -> bool

  datatype Packet = Packet(src: string, dst: string, established: bool, fromTunnel: bool, outIface: string)
  datatype Target = Accept | Drop
  datatype Rule = Rule(src: Option<string>, dst: Option<string>, target: Target)
  datatype State = Paused | FullTunnel | ServiceOnly | FullAccess

  const GATEWAY: string := "10.10.0.1"

  predicate RuleMatches(m: Matcher, r: Rule, pkt: Packet) {
    && (r.src.Some? ==> m(r.src.value, pkt.src))
    && (r.dst.Some? ==> m(r.dst.value, pkt.dst))
  }

  /** First-match semantics; `None` falls through to the calling chain. */
  function FirstMatch(m: Matcher, chain: seq<Rule>, pkt: Packet): Option<Target> {
    if chain == [] then None
    else if RuleMatches(m, chain[0], pkt) then Some(chain[0].target)
    else FirstMatch(m, chain[1..], pkt)
  }

  function BuildRules(ip: string, state: State): seq<Rule> {
    match state
    case Paused => [Rule(Some(ip), None, Drop), Rule(None, Some(ip), Drop)]
    case FullTunnel => [Rule(Some(ip), None, Accept), Rule(None, Some(ip), Accept)]
    case ServiceOnly =>
      [Rule(Some(ip), Some(GATEWAY), Accept), Rule(Some(GATEWAY), Some(ip), Accept),
       Rule(Some(ip), None, Drop), Rule(None, Some(ip), Drop)]
    case FullAccess => [Rule(Some(ip), None, Accept), Rule(None, Some(ip), Accept)]
  }

  /** The packet is sent or received by the child. */
  predicate Endpoint(m: Matcher, ip: string, pkt: Packet) { m(ip, pkt.src) || m(ip, pkt.dst) }

  /** What the state promises for the child's own traffic. */
  function Prescribed(m: Matcher, ip: string, state: State, pkt: Packet): Target {
    match state
    case Paused => Drop
    case FullTunnel => Accept
    case FullAccess => Accept
    case ServiceOnly =>
      if (m(ip, pkt.src) && m(GATEWAY, pkt.dst)) || (m(GATEWAY, pkt.src) && m(ip, pkt.dst)) then Accept else Drop
  }

  lemma {:induction false} FirstMatchAppend(m: Matcher, a: seq<Rule>, b: seq<Rule>, pkt: Packet)
    ensures FirstMatch(m, a + b, pkt) ==
            if FirstMatch(m, a, pkt).Some? then FirstMatch(m, a, pkt) else FirstMatch(m, b, pkt)
  {
    if a == [] {
      assert a + b == b;
    } else {
      assert (a + b)[1..] == a[1..] + b;
      FirstMatchAppend(m, a[1..], b, pkt);
    }
  }

  /** One child's rules decide exactly that child's packets, as its state prescribes. */
  lemma RulesOfOneChild(m: Matcher, ip: string, state: State, pkt: Packet)
    ensures FirstMatch(m, BuildRules(ip, state), pkt) ==
            if Endpoint(m, ip, pkt) then Some(Prescribed(m, ip, state, pkt)) else None
    // nobody else's packets are touched; all of its own pass, none, or only those to and from the gateway
    ensures FirstMatch(m, BuildRules(ip, state), pkt) == None <==> !m(ip, pkt.src) && !m(ip, pkt.dst)
    ensures FirstMatch(m, BuildRules(ip, state), pkt) == Some(Accept) <==>
              || (state in {FullTunnel, FullAccess} && (m(ip, pkt.src) || m(ip, pkt.dst)))
              || (state == ServiceOnly && m(ip, pkt.src) && m("10.10.0.1", pkt.dst))
              || (state == ServiceOnly && m("10.10.0.1", pkt.src) && m(ip, pkt.dst))
  {
    var rules := BuildRules(ip, state);
    assert FirstMatch(m, [], pkt) == None;
    assert rules[1..][1..] == rules[2..];
    if state.ServiceOnly? {
      assert rules[2..][1..] == rules[3..] && rules[3..][1..] == [];
      assert FirstMatch(m, rules[3..], pkt) ==
        if RuleMatches(m, rules[3], pkt) then Some(Drop) else None;
      assert FirstMatch(m, rules[2..], pkt) ==
        if RuleMatches(m, rules[2], pkt) then Some(Drop) else FirstMatch(m, rules[3..], pkt);
    } else {
      assert rules[2..] == [];
    }
  }

  // ---------------------------------------------------------------- resolving a child

  datatype Child = Child(publicKey: string, wireguardIp: string, deviceMac: string, paused: bool, routeMode: string)

  /** Stored route profiles (`None` when no reader is wired; "" when unset) and the peer table. */
  datatype Env = Env(keyProfile: Option<string -> string>, macProfile: string -> string, peerIp: string -> string)

  predicate InTunnelSubnet(ip: string) { |ip| >= 8 && ip[..8] == "10.10.0." }

  function ResolveIp(env: Env, c: Child): string {
    if InTunnelSubnet(c.wireguardIp) then c.wireguardIp
    else if c.publicKey != "" then env.peerIp(c.publicKey)
    else ""
  }

  /** A profile that names a state; anything else falls through to the next source. */
  function ProfileState(p: string): Option<State> {
    if p == "full_tunnel" then Some(FullTunnel)
    else if p == "service_only" then Some(ServiceOnly)
    else if p == "blocked" then Some(Paused)
    else None
  }

  function ResolveState(env: Env, c: Child): State {
    var byKey := if env.keyProfile.Some? then ProfileState(env.keyProfile.value(c.publicKey)) else None;
    var byMac := if env.keyProfile.Some? then ProfileState(env.macProfile(c.deviceMac)) else None;
    if byKey.Some? then byKey.value
    else if byMac.Some? then byMac.value
    else if c.paused then Paused
    else if c.routeMode == "full_tunnel" then FullTunnel
    else if c.routeMode == "service_only" then ServiceOnly
    else FullAccess
  }

  /** The child's own address counts if it lies in the tunnel's subnet; otherwise the peer table is asked. */
  lemma AddressIs(env: Env, c: Child)
    ensures ResolveIp(env, c) ==
              if exists host :: c.wireguardIp == "10.10.0." + host then c.wireguardIp
              else if c.publicKey != "" then env.peerIp(c.publicKey)
              else ""
  {
    if InTunnelSubnet(c.wireguardIp) {
      assert c.wireguardIp == "10.10.0." + c.wireguardIp[8..];
    }
    if host :| c.wireguardIp == "10.10.0." + host {
      assert c.wireguardIp[..8] == "10.10.0.";
    }
  }

  /** A bundle pause is lifted only by a stored profile that opens the device. */
  lemma PauseHolds(env: Env, c: Child)
    requires c.paused
    ensures ResolveState(env, c) == Paused <==>
              env.keyProfile.None?
              || (var k, d := env.keyProfile.value(c.publicKey), env.macProfile(c.deviceMac);
                  if k in {"full_tunnel", "service_only", "blocked"} then k == "blocked"
                  else d !in {"full_tunnel", "service_only"})
  {}

  /**
   * The words that decide for a child the bundle does not pause: its stored profile by key, else by hardware
   * address, else the bundle's route mode, which cannot block.
   */
  lemma UnpausedState(env: Env, c: Child)
    requires !c.paused
    ensures var words := {"full_tunnel", "service_only", "blocked"};
            var stored := env.keyProfile.Some?;
            var k := if stored then env.keyProfile.value(c.publicKey) else "";
            var d := if stored then env.macProfile(c.deviceMac) else "";
            var said := if k in words then k else if d in words then d else "";
            var word := if said != "" then said else c.routeMode;
            && (ResolveState(env, c) == Paused <==> said == "blocked")
            && (ResolveState(env, c) == FullTunnel <==> word == "full_tunnel")
            && (ResolveState(env, c) == ServiceOnly <==> word == "service_only")
  {}

  // ---------------------------------------------------------------- the FORWARD chain

  datatype ForwardRule = Established | Upstream(iface: string) | Jump | Other(id: nat)

  /** The three base rules, in the order they are checked. */
  function BaseRules(iface: string): seq<ForwardRule> { [Established, Upstream(iface), Jump] }

  /** A missing rule is inserted at position 1. */
  function Ensure(forward: seq<ForwardRule>, r: ForwardRule): seq<ForwardRule> {
    if r in forward then forward else [r] + forward
  }

  function EnsureBase(forward: seq<ForwardRule>, iface: string): seq<ForwardRule> {
    Ensure(Ensure(Ensure(forward, Established), Upstream(iface)), Jump)
  }

  /** The per-child chain is consulted before either blanket ACCEPT. */
  ghost predicate JumpFirst(forward: seq<ForwardRule>, iface: string) {
    && Jump in forward
    && forall i :: 0 <= i < |forward| && forward[i] in {Established, Upstream(iface)} ==> Jump in forward[..i]
  }

  lemma FrontBlocks(forward: seq<ForwardRule>, r: ForwardRule, iface: string)
    requires r in {Established, Upstream(iface)}
    ensures !JumpFirst([r] + forward, iface)
  {
    assert ([r] + forward)[0] == r && Jump !in ([r] + forward)[..0];
  }

  /**
   * One Sync puts the jump before both ACCEPT rules exactly when the jump was missing before, or
   * everything was already there in that order.
   */
  lemma JumpFirstIff(forward: seq<ForwardRule>, iface: string)
    ensures JumpFirst(EnsureBase(forward, iface), iface) <==>
              Jump !in forward
              || (Established in forward && Upstream(iface) in forward && JumpFirst(forward, iface))
  {
    var f1 := Ensure(forward, Established);
    var f2 := Ensure(f1, Upstream(iface));
    if Jump !in forward {
      var f3 := [Jump] + f2;
      assert EnsureBase(forward, iface) == f3;
      forall i | 0 <= i < |f3| && f3[i] in {Established, Upstream(iface)} ensures Jump in f3[..i] {
        assert f3[..i][0] == Jump;
      }
      assert f3[0] == Jump;
    } else if Upstream(iface) !in f1 {
      FrontBlocks(f1, Upstream(iface), iface);
    } else if Established !in forward {
      FrontBlocks(forward, Established, iface);
    }
  }

  /** Later Syncs with the same upstream interface leave the chain alone. */
  lemma EnsureIdempotent(forward: seq<ForwardRule>, iface: string)
    ensures EnsureBase(EnsureBase(forward, iface), iface) == EnsureBase(forward, iface)
  {
    var f := EnsureBase(forward, iface);
    var f1 := Ensure(forward, Established);
    var f2 := Ensure(f1, Upstream(iface));
    assert Established in f1 by { if Established !in forward { assert f1[0] == Established; } }
    assert Upstream(iface) in f2 by { if Upstream(iface) !in f1 { assert f2[0] == Upstream(iface); } }
    assert Jump in f by { if Jump !in f2 { assert f[0] == Jump; } }
  }

  /** The verdict of FORWARD; `other` stands for rules this program did not install. */
  function ForwardVerdict(m: Matcher, other: (nat, Packet) -> Option<Target>, forward: seq<ForwardRule>,
                          chain: seq<Rule>, pkt: Packet): Option<Target> {
    if forward == [] then None
    else
      var here := match forward[0]
        case Established => (if pkt.established then Some(Accept) else None)
        case Upstream(iface) => (if pkt.fromTunnel && pkt.outIface == iface then Some(Accept) else None)
        case Jump => FirstMatch(m, chain, pkt)
        case Other(id) => other(id, pkt);
      if here.Some? then here else ForwardVerdict(m, other, forward[1..], chain, pkt)
  }

  // ---------------------------------------------------------------- Sync

  /** The first listed child that has a tunnel address and is an endpoint of the packet. */
  ghost predicate Decides(m: Matcher, env: Env, children: seq<Child>, pkt: Packet, i: nat) {
    && i < |children| && ResolveIp(env, children[i]) != "" && Endpoint(m, ResolveIp(env, children[i]), pkt)
    && forall j :: 0 <= j < i ==>
         ResolveIp(env, children[j]) == "" || !Endpoint(m, ResolveIp(env, children[j]), pkt)
  }

  function PolicyVerdict(m: Matcher, env: Env, children: seq<Child>, pkt: Packet): Option<Target> {
    if children == [] then None
    else
      var ip := ResolveIp(env, children[0]);
      if ip != "" && Endpoint(m, ip, pkt) then Some(Prescribed(m, ip, ResolveState(env, children[0]), pkt))
      else PolicyVerdict(m, env, children[1..], pkt)
  }

  /** The policy verdict is that of the deciding child, if there is one. */
  lemma {:induction false} PolicyVerdictIs(m: Matcher, env: Env, children: seq<Child>, pkt: Packet, i: nat)
    requires Decides(m, env, children, pkt, i)
    ensures PolicyVerdict(m, env, children, pkt) ==
              Some(Prescribed(m, ResolveIp(env, children[i]), ResolveState(env, children[i]), pkt))
    decreases i
  {
    if i > 0 {
      assert Decides(m, env, children[1..], pkt, i - 1);
      PolicyVerdictIs(m, env, children[1..], pkt, i - 1);
    }
  }

  lemma {:induction false} PolicyVerdictNone(m: Matcher, env: Env, children: seq<Child>, pkt: Packet)
    ensures PolicyVerdict(m, env, children, pkt) == None <==>
              forall c :: c in children ==> ResolveIp(env, c) == "" || !Endpoint(m, ResolveIp(env, c), pkt)
  {
    if children != [] {
      PolicyVerdictNone(m, env, children[1..], pkt);
      assert forall c :: c in children <==> c == children[0] || c in children[1..];
    }
  }

  lemma {:induction false} PolicyVerdictAppend(m: Matcher, env: Env, a: seq<Child>, c: Child, pkt: Packet)
    ensures PolicyVerdict(m, env, a + [c], pkt) ==
            if PolicyVerdict(m, env, a, pkt).Some? then PolicyVerdict(m, env, a, pkt)
            else PolicyVerdict(m, env, [c], pkt)
  {
    if a == [] {
      assert a + [c] == [c];
    } else {
      assert (a + [c])[1..] == a[1..] + [c];
      PolicyVerdictAppend(m, env, a[1..], c, pkt);
    }
  }

  /** The chain gives every packet the policy's verdict. */
  ghost predicate Enforces(m: Matcher, env: Env, children: seq<Child>, chain: seq<Rule>) {
    forall pkt :: FirstMatch(m, chain, pkt) == PolicyVerdict(m, env, children, pkt)
  }

  function RulesFor(env: Env, c: Child): seq<Rule> {
    if ResolveIp(env, c) == "" then [] else BuildRules(ResolveIp(env, c), ResolveState(env, c))
  }

  /** Appending the next child's rules extends the verdicts to it, and only to packets still open. */
  lemma EnforcesNext(m: Matcher, env: Env, children: seq<Child>, chain: seq<Rule>, c: Child)
    requires Enforces(m, env, children, chain)
    ensures Enforces(m, env, children + [c], chain + RulesFor(env, c))
  {
    forall pkt
      ensures FirstMatch(m, chain + RulesFor(env, c), pkt) == PolicyVerdict(m, env, children + [c], pkt)
    {
      FirstMatchAppend(m, chain, RulesFor(env, c), pkt);
      PolicyVerdictAppend(m, env, children, c, pkt);
      RulesOfOneChild(m, ResolveIp(env, c), ResolveState(env, c), pkt);
      assert [c][1..] == [];
    }
  }

  /** Six pairs of characters separated by colons. */
  predicate IsHardwareAddress(s: string) {
    |s| == 17 && forall i :: 0 <= i < 17 ==> (s[i] == ':' <==> i % 3 == 2)
  }

  /** Which address specifications iptables takes is a parameter; hardware addresses are not among them. */
  ghost predicate RefusesHardwareAddresses(accepts: string -> bool) {
    forall s :: IsHardwareAddress(s) ==> !accepts(s)
  }

  class Enforcer {
    const m: Matcher
    const env: Env
    const iface: string
    var chain: seq<Rule>
    var forward: seq<ForwardRule>

    constructor (m: Matcher, env: Env, iface: string, forward: seq<ForwardRule>)
      ensures this.m == m && this.env == env && this.iface == iface && this.forward == forward && chain == []
    {
      this.m, this.env, this.iface, this.forward, chain := m, env, iface, forward, [];
    }

    method EnsureForward()
      modifies this`forward
      ensures forward == EnsureBase(old(forward), iface)
    {
      var base := BaseRules(iface);
      var i := 0;
      while i < |base|
        invariant 0 <= i <= |base|
        invariant i == 0 ==> forward == old(forward)
        invariant i == 1 ==> forward == Ensure(old(forward), Established)
        invariant i == 2 ==> forward == Ensure(Ensure(old(forward), Established), Upstream(iface))
        invariant i == 3 ==> forward == EnsureBase(old(forward), iface)
      {
        if base[i] !in forward { forward := [base[i]] + forward; }
        i := i + 1;
      }
    }

    method Append(rules: seq<Rule>)
      modifies this`chain
      ensures chain == old(chain) + rules
    {
      var i := 0;
      while i < |rules|
        invariant 0 <= i <= |rules|
        invariant chain == old(chain) + rules[..i]
      {
        chain := chain + [rules[i]];
        i := i + 1;
      }
    }

    method Sync(children: seq<Child>)
      modifies this
      ensures forward == EnsureBase(old(forward), iface)
      ensures Enforces(m, env, children, chain)
    {
      EnsureForward();
      chain := [];
      assert Enforces(m, env, [], []);
      var i := 0;
      while i < |children|
        invariant 0 <= i <= |children|
        invariant forward == EnsureBase(old(forward), iface)
        invariant Enforces(m, env, children[..i], chain)
      {
        var ip := ResolveIp(env, children[i]);
        assert children[..i + 1] == children[..i] + [children[i]];
        EnforcesNext(m, env, children[..i], chain, children[i]);
        if ip != "" {
          Append(BuildRules(ip, ResolveState(env, children[i])));
        } else {
          assert chain + [] == chain;
        }
        i := i + 1;
      }
      assert children[..i] == children;
    }

    /**
     * Always reports success. The pause command passes a hardware address, which iptables refuses as a
     * source or destination, so nothing is appended; and had it been accepted, rules appended later would
     * not change a verdict already given.
     */
    method PauseDevice(mac: string, accepts: string -> bool) returns (ok: bool)
      requires RefusesHardwareAddresses(accepts)
      modifies this
      ensures ok
      ensures forward == EnsureBase(old(forward), iface)
      ensures IsHardwareAddress(mac) ==> chain == old(chain)
      ensures chain == old(chain) + if accepts(mac) then BuildRules(mac, Paused) else []
      ensures forall pkt :: FirstMatch(m, old(chain), pkt).Some? ==>
                FirstMatch(m, chain, pkt) == FirstMatch(m, old(chain), pkt)
    {
      EnsureForward();
      ok := true;
      if !accepts(mac) { return; }
      forall pkt ensures FirstMatch(m, chain + BuildRules(mac, Paused), pkt) ==
        if FirstMatch(m, chain, pkt).Some? then FirstMatch(m, chain, pkt)
        else FirstMatch(m, BuildRules(mac, Paused), pkt)
      {
        FirstMatchAppend(m, chain, BuildRules(mac, Paused), pkt);
      }
      Append(BuildRules(mac, Paused));
    }
  }

  /**
   * End to end: when the jump was not installed before, the first Sync makes FORWARD give every
   * packet of a listed child the verdict of that child's state, whatever other rules exist, even for
   * established connections.
   */
  lemma SyncedForward(m: Matcher, other: (nat, Packet) -> Option<Target>, env: Env, children: seq<Child>,
                      before: seq<ForwardRule>, iface: string, chain: seq<Rule>, pkt: Packet, i: nat)
    requires Jump !in before && Enforces(m, env, children, chain) && Decides(m, env, children, pkt, i)
    ensures ForwardVerdict(m, other, EnsureBase(before, iface), chain, pkt) ==
              Some(Prescribed(m, ResolveIp(env, children[i]), ResolveState(env, children[i]), pkt))
  {
    var f2 := Ensure(Ensure(before, Established), Upstream(iface));
    assert EnsureBase(before, iface) == [Jump] + f2;
    PolicyVerdictIs(m, env, children, pkt, i);
    assert FirstMatch(m, chain, pkt) == PolicyVerdict(m, env, children, pkt);
  }

  /**
   * Whatever FORWARD held besides, if the jump was there and the conntrack rule was not, re-adding that
   * rule lets every established connection live on, a paused child's included.
   */
  lemma ReinsertedConntrackBypasses(m: Matcher, other: (nat, Packet) -> Option<Target>, before: seq<ForwardRule>,
                                    iface: string, chain: seq<Rule>, pkt: Packet)
    requires pkt.established && Jump in before && Established !in before
    ensures ForwardVerdict(m, other, EnsureBase(before, iface), chain, pkt) == Some(Accept)
  {
    var f1 := [Established] + before;
    assert Ensure(before, Established) == f1 && f1[1..] == before;
    assert Jump in f1;
    if Upstream(iface) !in f1 {
      var f2 := [Upstream(iface)] + f1;
      assert EnsureBase(before, iface) == f2 && f2[1..] == f1;
    } else {
      assert EnsureBase(before, iface) == f1;
    }
  }
}
