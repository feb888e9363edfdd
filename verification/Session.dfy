/** The Hello exchange seeds both credit tables from one list of grants, and so opens the session
    that the credit protocol starts from (`send_hello_response`, `handle_hello_request`,
    `handle_hello_response`). */
module Session {
  import opened Bytes
  import opened LinkState
  import opened CreditProtocol

  const HCI: byte := 4
  const OTA: byte := 5
  const HCI_ADV: byte := 9
  const HCI_CREDIT: uint32 := 16
  const HCI_ADV_CREDIT: uint32 := 4
  const OTA_CREDIT: uint32 := 4

  /** One entry of the response. The channel is a 32-bit field on the wire. */
  datatype Grant = Grant(channel: uint32, units: uint32)

  /** The services the Coprocessor has; `advertising` is what the Host asked for. */
  datatype Services = Services(bluetooth: bool, advertising: bool, ota: bool, eth: bool)

  function Granted(initial: uint32, has: Services): seq<Grant> {
    [Grant(0, initial), Grant(1, initial), Grant(STA, initial), Grant(AP, initial)] +
    (if has.bluetooth then [Grant(HCI, HCI_CREDIT)] else []) +
    (if has.bluetooth && has.advertising then [Grant(HCI_ADV, HCI_ADV_CREDIT)] else []) +
    (if has.ota then [Grant(OTA, OTA_CREDIT)] else []) +
    (if has.eth then [Grant(ETH, initial)] else [])
  }

  /** The Coprocessor's own table: the other channels keep what they had. */
  function OwnCredit(before: PerChannel, initial: uint32, has: Services): PerChannel {
    before[0 := initial][1 := initial][STA := initial][AP := initial]
          [HCI := if has.bluetooth then HCI_CREDIT else 0]
          [HCI_ADV := if has.bluetooth && has.advertising then HCI_ADV_CREDIT else 0]
          [OTA := if has.ota then OTA_CREDIT else 0]
          [ETH := if has.eth then initial else 0]
  }

  /** The Host's table: zero, then every entry of the list whose channel exists. */
  function SeededCredit(grants: seq<Grant>): PerChannel
    decreases |grants|
  {
    if |grants| == 0 then seq(CHANNELS, _ => 0)
    else
      var rest := SeededCredit(grants[..|grants| - 1]);
      var last := grants[|grants| - 1];
      if last.channel < CHANNELS then rest[last.channel := last.units] else rest
  }

  /** The last entry of a channel decides its credit. */
  lemma {:induction false} SeededAt(grants: seq<Grant>, channel: byte, k: nat)
    requires k < |grants| && grants[k].channel == channel
    requires forall j :: k < j < |grants| ==> grants[j].channel != channel
    ensures SeededCredit(grants)[channel] == grants[k].units
    decreases |grants|
  {
    if k < |grants| - 1 {
      SeededAt(grants[..|grants| - 1], channel, k);
    }
  }

  lemma {:induction false} SeededNowhere(grants: seq<Grant>, channel: byte)
    requires forall j :: 0 <= j < |grants| ==> grants[j].channel != channel
    ensures SeededCredit(grants)[channel] == 0
    decreases |grants|
  {
    if |grants| > 0 {
      SeededNowhere(grants[..|grants| - 1], channel);
    }
  }

  predicate Negotiated(channel: byte) {
    channel <= 5 || channel == HCI_ADV || channel == ETH
  }

  /** The list names each channel once, with what the Coprocessor gives itself, and leaves out
      only channels without credit. */
  lemma GrantsOnce(before: PerChannel, initial: uint32, has: Services)
    ensures var grants := Granted(initial, has);
            && (forall i, j :: 0 <= i < j < |grants| ==> grants[i].channel != grants[j].channel)
            && (forall i :: 0 <= i < |grants| ==>
                  grants[i].channel < CHANNELS && Negotiated(grants[i].channel) &&
                  grants[i].units == OwnCredit(before, initial, has)[grants[i].channel])
            && (forall c: byte :: Negotiated(c) && (forall i :: 0 <= i < |grants| ==> grants[i].channel != c) ==>
                  OwnCredit(before, initial, has)[c] == 0)
  {
    var grants := Granted(initial, has);
    assert grants[0].channel == 0 && grants[1].channel == 1 && grants[2].channel == STA && grants[3].channel == AP;
    assert has.bluetooth ==> grants[4].channel == HCI;
    assert has.bluetooth && has.advertising ==> grants[5].channel == HCI_ADV;
    var b := 4 + (if has.bluetooth then 1 else 0) + (if has.bluetooth && has.advertising then 1 else 0);
    assert has.ota ==> grants[b].channel == OTA;
    assert has.eth ==> grants[|grants| - 1].channel == ETH;
  }

  /** Both sides start with the same credit on every channel the exchange negotiates, and the Host
      with none anywhere else. */
  lemma CreditsAgree(before: PerChannel, initial: uint32, has: Services, channel: byte)
    ensures var host := SeededCredit(Granted(initial, has))[channel];
            if Negotiated(channel)
            then host == OwnCredit(before, initial, has)[channel]
            else host == 0
  {
    hide SeededCredit, Granted, OwnCredit;
    var grants := Granted(initial, has);
    GrantsOnce(before, initial, has);
    if k :| 0 <= k < |grants| && grants[k].channel == channel {
      SeededAt(grants, channel, k);
    } else {
      SeededNowhere(grants, channel);
    }
  }

  /** Both endpoints after the exchange, when no Ethernet frame and no CreditUpdate of an earlier
      session is still on a wire. Queued jobs and sequence numbers of the Host survive it. */
  function Exchanged(s: Sys, session: uint32, initial: uint32, has: Services): Sys {
    var host := s.host.(session := session, credit := SeededCredit(Granted(initial, has)), congested := false);
    var coproc := s.coproc.(session := session, credit := OwnCredit(s.coproc.credit, initial, has),
                            sequence := seq(CHANNELS, _ => 0), congested := false);
    var rx := s.coprocRx.(valid := seq(CHANNELS, _ => false), pending := [0, 0, 0], failures := 0, wakeQueued := false);
    Sys(host, HostRx([0, 0, 0], 0), s.hostOwned, coproc, rx, s.coprocOwned, [], [],
        [Opening(host.sequence[STA]), Opening(host.sequence[AP]), Opening(host.sequence[ETH])])
  }

  function Opening(sequence: uint32): Book {
    Book(sequence, 0, 0, 0, 0, 0, 0, 0)
  }

  /** The exchange opens a session of the credit protocol with one grant for each interface. */
  lemma HelloOpens(link: Link, s: Sys, has: Services)
    requires link.grants == [link.initialCredit, link.initialCredit, if has.eth then link.initialCredit else 0]
    ensures var n := Exchanged(s, link.session, link.initialCredit, has);
            Opened(link, n) && n.coprocRx.failures == 0 && !n.coprocRx.wakeQueued && n.hostRx.due == 0
  {
    hide SeededCredit, OwnCredit;
    var own := OwnCredit(s.coproc.credit, link.initialCredit, has);
    OwnAt(s.coproc.credit, link.initialCredit, has);
    forall i | 0 <= i < 3
      ensures SeededCredit(Granted(link.initialCredit, has))[ChannelAt(i)] == own[ChannelAt(i)] == link.grants[i]
    {
      CreditsAgree(s.coproc.credit, link.initialCredit, has, ChannelAt(i));
    }
  }

  lemma OwnAt(before: PerChannel, initial: uint32, has: Services)
    ensures var own := OwnCredit(before, initial, has);
            own[STA] == own[AP] == initial && own[ETH] == if has.eth then initial else 0
  {
  }

  // ---------------------------------------------------------------------------------------
  // The tables in place
  // ---------------------------------------------------------------------------------------

  /** The Host's loop over the response. */
  method SeedFromResponse(credit: array<uint32>, grants: seq<Grant>)
    requires credit.Length == CHANNELS
    modifies credit
    ensures credit[..] == SeededCredit(grants)
  {
    forall k | 0 <= k < CHANNELS {
      credit[k] := 0;
    }
    assert credit[..] == SeededCredit(grants[..0]);
    var i := 0;
    while i < |grants|
      invariant i <= |grants|
      invariant credit[..] == SeededCredit(grants[..i])
    {
      assert grants[..i + 1][..i] == grants[..i];
      ghost var before := credit[..];
      if grants[i].channel < CHANNELS {
        credit[grants[i].channel] := grants[i].units;
        assert credit[..] == before[grants[i].channel := grants[i].units];
      }
      i := i + 1;
    }
    assert grants[..|grants|] == grants;
  }

  /** The Coprocessor fills its response and its own table together. */
  method GrantAndSeed(credit: array<uint32>, initial: uint32, has: Services) returns (grants: seq<Grant>)
    requires credit.Length == CHANNELS
    modifies credit
    ensures grants == Granted(initial, has)
    ensures credit[..] == OwnCredit(old(credit[..]), initial, has)
  {
    grants := [];
    var i := 0;
    while i < 4
      invariant 0 <= i <= 4 && |grants| == i
      invariant forall k :: 0 <= k < i ==> grants[k] == Grant(k, initial)
      invariant forall k :: 0 <= k < CHANNELS ==> credit[k] == if k < i then initial else old(credit[k])
    {
      grants := grants + [Grant(i, initial)];
      credit[i] := initial;
      i := i + 1;
    }
    assert grants == [Grant(0, initial), Grant(1, initial), Grant(2, initial), Grant(3, initial)];
    credit[HCI] := 0;
    credit[HCI_ADV] := 0;
    if has.bluetooth {
      grants := grants + [Grant(HCI, HCI_CREDIT)];
      credit[HCI] := HCI_CREDIT;
      if has.advertising {
        grants := grants + [Grant(HCI_ADV, HCI_ADV_CREDIT)];
        credit[HCI_ADV] := HCI_ADV_CREDIT;
      }
    }
    credit[OTA] := 0;
    if has.ota {
      grants := grants + [Grant(OTA, OTA_CREDIT)];
      credit[OTA] := OTA_CREDIT;
    }
    credit[ETH] := 0;
    if has.eth {
      grants := grants + [Grant(ETH, initial)];
      credit[ETH] := initial;
    }
    OwnCreditAt(old(credit[..]), credit[..], initial, has);
  }

  lemma OwnCreditAt(before: PerChannel, after: PerChannel, initial: uint32, has: Services)
    requires forall k :: 0 <= k < CHANNELS ==>
               after[k] == if k < 4 then initial
                           else if k == HCI then (if has.bluetooth then HCI_CREDIT else 0)
                           else if k == HCI_ADV then (if has.bluetooth && has.advertising then HCI_ADV_CREDIT else 0)
                           else if k == OTA then (if has.ota then OTA_CREDIT else 0)
                           else if k == ETH then (if has.eth then initial else 0)
                           else before[k]
    ensures after == OwnCredit(before, initial, has)
  {
  }
}
