/** The role a service takes on one link, negotiated from what it can do and what its client asks to be. */
module LinkRoles {
  datatype Role = EvtProducer | EvtConsumer | CmdInitiator | CmdExecutor | DatSender | DatReceiver

  type Usage = set<Role>

  function Complement(role: Role): Role {
    match role
    case EvtProducer => EvtConsumer
    case EvtConsumer => EvtProducer
    case CmdInitiator => CmdExecutor
    case CmdExecutor => CmdInitiator
    case DatSender => DatReceiver
    case DatReceiver => DatSender
  }

  function Complements(usage: Usage): Usage {
    set role | role in usage :: Complement(role)
  }

  /** One test of the chain: the service's side of a pair, if the client asks for the other and the service can. */
  function Offer(serviceCapabilities: Usage, clientUsage: Usage, asked: Role, given: Role): Usage {
    if asked in clientUsage && given in serviceCapabilities then {given} else {}
  }

  /** The chain of tests leaves the capabilities that complement the client's usage, and nothing else. */
  function Negotiated(serviceCapabilities: Usage, clientUsage: Usage): (r: Usage)
    ensures r == serviceCapabilities * Complements(clientUsage)
  {
    var r := Offer(serviceCapabilities, clientUsage, CmdExecutor, CmdInitiator)
           + Offer(serviceCapabilities, clientUsage, CmdInitiator, CmdExecutor)
           + Offer(serviceCapabilities, clientUsage, EvtProducer, EvtConsumer)
           + Offer(serviceCapabilities, clientUsage, EvtConsumer, EvtProducer)
           + Offer(serviceCapabilities, clientUsage, DatReceiver, DatSender)
           + Offer(serviceCapabilities, clientUsage, DatSender, DatReceiver);
    NegotiatedIsIntersection(serviceCapabilities, clientUsage, r);
    r
  }

  lemma NegotiatedIsIntersection(serviceCapabilities: Usage, clientUsage: Usage, r: Usage)
    requires r == Offer(serviceCapabilities, clientUsage, CmdExecutor, CmdInitiator)
                + Offer(serviceCapabilities, clientUsage, CmdInitiator, CmdExecutor)
                + Offer(serviceCapabilities, clientUsage, EvtProducer, EvtConsumer)
                + Offer(serviceCapabilities, clientUsage, EvtConsumer, EvtProducer)
                + Offer(serviceCapabilities, clientUsage, DatReceiver, DatSender)
                + Offer(serviceCapabilities, clientUsage, DatSender, DatReceiver)
    ensures r == serviceCapabilities * Complements(clientUsage)
  {
    forall role: Role ensures role in r <==> role in serviceCapabilities * Complements(clientUsage) {
      assert role in Complements(clientUsage) <==> Complement(role) in clientUsage by {
        assert Complement(Complement(role)) == role;
      }
    }
  }

  /** A client that is only an initiator is refused or gets a peer that is an executor and nothing else. */
  lemma InitiatorGetsExecutor(serviceCapabilities: Usage)
    ensures Negotiated(serviceCapabilities, {CmdInitiator}) == if CmdExecutor in serviceCapabilities then {CmdExecutor} else {}
  {
    assert Complements({CmdInitiator}) == {CmdExecutor};
  }
}

/** Usages as the bit masks the code keeps them in. */
module LinkUsageMasks {
  import opened LinkRoles

  type Mask = bv32

  const UNDEFINED: Mask := 0

  function Bit(role: Role): Mask {
    match role
    case EvtProducer => 1
    case EvtConsumer => 2
    case CmdInitiator => 4
    case CmdExecutor => 8
    case DatSender => 16
    case DatReceiver => 32
  }

  function RolesOf(mask: Mask): Usage {
    set role: Role | mask & Bit(role) != 0
  }

  function NegotiateLinkRole(serviceCapabilities: Mask, clientUsage: Mask): Mask {
    var r0 := UNDEFINED;
    var r1 := if clientUsage & 8 != 0 && serviceCapabilities & 4 != 0 then r0 | 4 else r0;
    var r2 := if clientUsage & 4 != 0 && serviceCapabilities & 8 != 0 then r1 | 8 else r1;
    var r3 := if clientUsage & 1 != 0 && serviceCapabilities & 2 != 0 then r2 | 2 else r2;
    var r4 := if clientUsage & 2 != 0 && serviceCapabilities & 1 != 0 then r3 | 1 else r3;
    var r5 := if clientUsage & 32 != 0 && serviceCapabilities & 16 != 0 then r4 | 16 else r4;
    if clientUsage & 16 != 0 && serviceCapabilities & 32 != 0 then r5 | 32 else r5
  }

  lemma BitsOfNegotiated(serviceCapabilities: Mask, clientUsage: Mask)
    ensures var r := NegotiateLinkRole(serviceCapabilities, clientUsage);
            && (r & 1 != 0 <==> serviceCapabilities & 1 != 0 && clientUsage & 2 != 0)
            && (r & 2 != 0 <==> serviceCapabilities & 2 != 0 && clientUsage & 1 != 0)
            && (r & 4 != 0 <==> serviceCapabilities & 4 != 0 && clientUsage & 8 != 0)
            && (r & 8 != 0 <==> serviceCapabilities & 8 != 0 && clientUsage & 4 != 0)
            && (r & 16 != 0 <==> serviceCapabilities & 16 != 0 && clientUsage & 32 != 0)
            && (r & 32 != 0 <==> serviceCapabilities & 32 != 0 && clientUsage & 16 != 0)
            && r & 0xFFFF_FFC0 == 0
  {
  }

  lemma MaskOfKnownBits(r: Mask)
    requires r & 0xFFFF_FFC0 == 0 && r != 0
    ensures r & 1 != 0 || r & 2 != 0 || r & 4 != 0 || r & 8 != 0 || r & 16 != 0 || r & 32 != 0
  {
  }

  lemma BitInNegotiated(serviceCapabilities: Mask, clientUsage: Mask, role: Role)
    ensures NegotiateLinkRole(serviceCapabilities, clientUsage) & Bit(role) != 0
       <==> serviceCapabilities & Bit(role) != 0 && clientUsage & Bit(Complement(role)) != 0
  {
    BitsOfNegotiated(serviceCapabilities, clientUsage);
  }

  /** No role is left exactly when the mask is zero. */
  lemma UndefinedHasNoRole(serviceCapabilities: Mask, clientUsage: Mask)
    ensures var r := NegotiateLinkRole(serviceCapabilities, clientUsage);
            r == UNDEFINED <==> RolesOf(r) == {}
  {
    BitsOfNegotiated(serviceCapabilities, clientUsage);
    var r := NegotiateLinkRole(serviceCapabilities, clientUsage);
    if r != UNDEFINED {
      MaskOfKnownBits(r);
      assert EvtProducer in RolesOf(r) || EvtConsumer in RolesOf(r) || CmdInitiator in RolesOf(r) || CmdExecutor in RolesOf(r)
          || DatSender in RolesOf(r) || DatReceiver in RolesOf(r);
    }
  }

  lemma InNegotiated(serviceCapabilities: Usage, clientUsage: Usage, role: Role)
    ensures role in Negotiated(serviceCapabilities, clientUsage)
       <==> role in serviceCapabilities && Complement(role) in clientUsage
  {
    assert Complement(Complement(role)) == role;
  }

  /** Membership in terms of a bit, for one role of one mask. */
  lemma InRolesOf(mask: Mask, role: Role)
    ensures role in RolesOf(mask) <==> mask & Bit(role) != 0
  {
  }

  lemma RoleInNegotiated(serviceCapabilities: Mask, clientUsage: Mask, role: Role)
    ensures role in RolesOf(NegotiateLinkRole(serviceCapabilities, clientUsage))
       <==> role in RolesOf(serviceCapabilities) && Complement(role) in RolesOf(clientUsage)
  {
    BitInNegotiated(serviceCapabilities, clientUsage, role);
    InRolesOf(NegotiateLinkRole(serviceCapabilities, clientUsage), role);
    InRolesOf(serviceCapabilities, role);
    InRolesOf(clientUsage, Complement(role));
  }

  /** The mask arithmetic is the negotiation of roles. */
  lemma MasksNegotiate(serviceCapabilities: Mask, clientUsage: Mask)
    ensures RolesOf(NegotiateLinkRole(serviceCapabilities, clientUsage))
         == Negotiated(RolesOf(serviceCapabilities), RolesOf(clientUsage))
  {
    var negotiated := RolesOf(NegotiateLinkRole(serviceCapabilities, clientUsage));
    var caps, usage := RolesOf(serviceCapabilities), RolesOf(clientUsage);
    forall role: Role ensures role in negotiated <==> role in Negotiated(caps, usage) {
      RoleInNegotiated(serviceCapabilities, clientUsage, role);
      InNegotiated(caps, usage, role);
    }
  }
}
