/**
 Checking that a device ignores an unsolicited sync response
 (conformance/src/engine.rs, `step_verify_unsolicited_sync_res`): read both
 counters, inject a response that would advance them, and read them again.
 */
module SyncCheck {
  import opened Wrappers

  const U48: nat := 0x1_0000_0000_0000
  const U64: nat := 0x1_0000_0000_0000_0000

  // ---------------------------------------------------------------------
  // Resolving a counter (conformance/src/lib.rs)
  // ---------------------------------------------------------------------

  datatype LocalSequence = Request | RequestOffset(offset: int) | Fixed(value: nat)

  /** `checked_add_signed` on 64 bits. */
  function CheckedAdd(a: nat, offset: int): Option<nat> {
    if 0 <= a + offset < U64 then Some(a + offset) else None
  }

  function Resolve(s: LocalSequence, request: nat): Option<nat> {
    var value := match s
      case Request => Some(request)
      case RequestOffset(offset) => CheckedAdd(request, offset)
      case Fixed(value) => Some(value);
    if value.Some? && value.value < U48 then value else None
  }

  // ---------------------------------------------------------------------
  // The device and what the harness sees of it
  // ---------------------------------------------------------------------

  datatype SyncCounters = SyncCounters(sending: nat, peerNext: nat)

  type Challenge = c: seq<bv8> | |c| == 6 witness seq(6, i => 0)

  /** A sync response answers one challenge; another one cannot decrypt it. */
  datatype Reply = Reply(challenge: Challenge, counters: SyncCounters)

  /** Any device: its live counters, what a sync request does, and what an
      unsolicited response does (nothing if the injection fails on the link). */
  datatype Device<!S> = Device(
    counters: S -> SyncCounters,
    request: (S, Challenge) -> (Option<Reply>, S),
    response: (S, SyncCounters) -> Option<S>
  )

  datatype SyncResInject = SyncResInject(systemBroadcast: bool, npdu: bv8, tpciHigh: bv8, challenge: Challenge)

  predicate UnicastConnectionless(p: SyncResInject) {
    !p.systemBroadcast && p.npdu & 0x80 == 0 && p.tpciHigh & 0xFC == 0
  }

  /** One probe: nothing unless the device answers this very challenge, with the expected counters if any are given. */
  method Probe<S>(device: Device<S>, s: S, challenge: Challenge, expected: Option<SyncCounters>)
    returns (r: Option<SyncCounters>, next: S)
    ensures next == device.request(s, challenge).1
    ensures r == ProbeResult(device, s, challenge, expected)
  {
    var (reply, after) := device.request(s, challenge);
    next := after;
    if reply.None? || reply.value.challenge != challenge {
      return None, next;
    }
    var counters := reply.value.counters;
    if expected.Some? && (counters.sending != expected.value.sending || counters.peerNext != expected.value.peerNext) {
      return None, next;
    }
    return Some(counters), next;
  }

  function ProbeResult<S>(device: Device<S>, s: S, challenge: Challenge, expected: Option<SyncCounters>)
    : Option<SyncCounters>
  {
    var reply := device.request(s, challenge).0;
    if reply.Some? && reply.value.challenge == challenge && (expected.Some? ==> reply.value.counters == expected.value)
    then Some(reply.value.counters) else None
  }

  /** The second probe flips a bit of the challenge. */
  function Flipped(c: Challenge): Challenge {
    c[5 := c[5] ^ 1]
  }

  /** How far the check got. */
  datatype Progress =
    | NotStarted
    | NoFirstAnswer
    | CannotAdvance(before: SyncCounters)
    | NotInjected(before: SyncCounters)
    | Injected(before: SyncCounters, sent: SyncCounters)

  method VerifyUnsolicited<S>(device: Device<S>, start: S, params: SyncResInject, keyKnown: bool)
    returns (ok: bool, progress: Progress)
    ensures ok <==> Passes(device, start, params, keyKnown)
    ensures progress == ProgressOf(device, start, params, keyKnown)
  {
    if !keyKnown {
      return false, NotStarted;
    }
    if params.systemBroadcast || params.npdu & 0x80 != 0 || params.tpciHigh & 0xFC != 0 {
      return false, NotStarted;
    }
    var before, s := Probe(device, start, params.challenge, None);
    if before.None? {
      return false, NoFirstAnswer;
    }
    var sending := Resolve(RequestOffset(1), before.value.sending);
    if sending.None? {
      return false, CannotAdvance(before.value);
    }
    var peerNext := Resolve(RequestOffset(1), before.value.peerNext);
    if peerNext.None? {
      return false, CannotAdvance(before.value);
    }
    var sent := SyncCounters(sending.value, peerNext.value);
    var after := device.response(s, sent);
    if after.None? {
      return false, NotInjected(before.value);
    }
    var second, end := Probe(device, after.value, Flipped(params.challenge), before);
    return second.Some?, Injected(before.value, sent);
  }

  /** Both counters one higher, when 48 bits leave room for it. */
  function Advanced(c: SyncCounters): Option<SyncCounters> {
    if c.sending + 1 < U48 && c.peerNext + 1 < U48 then Some(SyncCounters(c.sending + 1, c.peerNext + 1)) else None
  }

  function ProgressOf<S>(device: Device<S>, start: S, params: SyncResInject, keyKnown: bool): Progress {
    if !keyKnown || !UnicastConnectionless(params) then NotStarted
    else
      match ProbeResult(device, start, params.challenge, None)
      case None => NoFirstAnswer
      case Some(before) =>
        match Advanced(before)
        case None => CannotAdvance(before)
        case Some(sent) =>
          if device.response(device.request(start, params.challenge).1, sent).None? then NotInjected(before)
          else Injected(before, sent)
  }

  predicate Passes<S>(device: Device<S>, start: S, params: SyncResInject, keyKnown: bool) {
    match ProgressOf(device, start, params, keyKnown)
    case Injected(before, sent) =>
      (match device.response(device.request(start, params.challenge).1, sent)
       case None => false
       case Some(after) => ProbeResult(device, after, Flipped(params.challenge), Some(before)).Some?)
    case _ => false
  }

  // ---------------------------------------------------------------------
  // What a verdict says about the device
  // ---------------------------------------------------------------------

  /** Sync requests leave the counters alone, and an answer shows them. */
  ghost predicate ProbesAreQuiet<S(!new)>(device: Device<S>) {
    forall s, c ::
      var (reply, next) := device.request(s, c);
      device.counters(next) == device.counters(s) && (reply.Some? ==> reply.value.counters == device.counters(s))
  }

  /** Every request is answered under its own challenge. */
  ghost predicate AlwaysAnswers<S(!new)>(device: Device<S>) {
    forall s, c :: var reply := device.request(s, c).0; reply.Some? && reply.value.challenge == c
  }

  /** The device lets an unsolicited response move a counter to a value it carries. */
  predicate Adopts<S>(device: Device<S>, s: S, sent: SyncCounters) {
    match device.response(s, sent)
    case None => false
    case Some(after) =>
      device.counters(after).sending == sent.sending || device.counters(after).peerNext == sent.peerNext
  }

  predicate Ignores<S>(device: Device<S>, s: S, sent: SyncCounters) {
    match device.response(s, sent)
    case None => false
    case Some(after) => device.counters(after) == device.counters(s)
  }

  /** From every state the check stops early or injects values exactly one above both live counters. */
  lemma InjectsOneAbove<S(!new)>(device: Device<S>, start: S, params: SyncResInject, keyKnown: bool)
    requires ProbesAreQuiet(device)
    ensures match ProgressOf(device, start, params, keyKnown)
            case Injected(before, sent) =>
              && before == device.counters(start)
              && sent == SyncCounters(before.sending + 1, before.peerNext + 1)
              && sent.sending < U48 && sent.peerNext < U48
            case CannotAdvance(before) =>
              before == device.counters(start) && (before.sending + 1 >= U48 || before.peerNext + 1 >= U48)
            case _ => true
  {
    var (reply, next) := device.request(start, params.challenge);
    assert reply.Some? ==> reply.value.counters == device.counters(start);
  }

  /** A device that adopts either value never passes, whatever its counters were. */
  lemma AdoptionIsExposed<S(!new)>(device: Device<S>, start: S, params: SyncResInject, keyKnown: bool)
    requires ProbesAreQuiet(device)
    requires var advanced := Advanced(device.counters(start));
             advanced.Some? ==> Adopts(device, device.request(start, params.challenge).1, advanced.value)
    ensures !Passes(device, start, params, keyKnown)
  {
    InjectsOneAbove(device, start, params, keyKnown);
    var progress := ProgressOf(device, start, params, keyKnown);
    if progress.Injected? {
      var mid := device.request(start, params.challenge).1;
      var after := device.response(mid, progress.sent).value;
      var (reply, next) := device.request(after, Flipped(params.challenge));
      assert reply.Some? ==> reply.value.counters == device.counters(after);
    }
  }

  lemma BitsAreBounds(p: SyncResInject)
    ensures UnicastConnectionless(p) <==> !p.systemBroadcast && p.npdu < 0x80 && p.tpciHigh < 4
  {
  }

  /** For a device that answers, the check passes exactly when the key is known, the response is a
      unicast connectionless one, both counters can advance within 48 bits and the response that carries
      the next value of both left them alone. */
  lemma PassesIffIgnored<S(!new)>(device: Device<S>, start: S, params: SyncResInject, keyKnown: bool)
    requires ProbesAreQuiet(device) && AlwaysAnswers(device)
    ensures var counters := device.counters(start);
            var mid := device.request(start, params.challenge).1;
            Passes(device, start, params, keyKnown) <==>
              && keyKnown && !params.systemBroadcast && params.npdu < 0x80 && params.tpciHigh < 4
              && counters.sending + 1 < 0x1_0000_0000_0000 && counters.peerNext + 1 < 0x1_0000_0000_0000
              && device.response(mid, SyncCounters(counters.sending + 1, counters.peerNext + 1)).Some?
              && device.counters(device.response(mid, SyncCounters(counters.sending + 1, counters.peerNext + 1)).value)
                 == counters
  {
    BitsAreBounds(params);
    var (first, mid) := device.request(start, params.challenge);
    assert first.Some? && first.value.counters == device.counters(start) == device.counters(mid);
    var advanced := Advanced(device.counters(start));
    if advanced.Some? && device.response(mid, advanced.value).Some? {
      var after := device.response(mid, advanced.value).value;
      var (second, end) := device.request(after, Flipped(params.challenge));
      assert second.Some? && second.value.counters == device.counters(after);
    }
  }

  /** Nothing is sent for an unknown key or a response that is broadcast, has the top bit of its
      network octet set or is not connectionless; otherwise the first probe is. */
  lemma StartsExactlyWhen<S>(device: Device<S>, start: S, params: SyncResInject, keyKnown: bool)
    ensures ProgressOf(device, start, params, keyKnown).NotStarted?
            <==> !keyKnown || params.systemBroadcast || params.npdu >= 0x80 || params.tpciHigh >= 4
  {
    BitsAreBounds(params);
  }

  /** A counter an injected response carries: the request's own, moved, or a given one, if it fits 48 bits. */
  lemma ResolvesTo(request: nat, offset: int, value: nat)
    ensures Resolve(Request, request) == if request < 0x1_0000_0000_0000 then Some(request) else None
    ensures Resolve(Fixed(value), request) == if value < 0x1_0000_0000_0000 then Some(value) else None
    ensures Resolve(RequestOffset(offset), request)
            == if 0 <= request + offset < 0x1_0000_0000_0000 then Some(request + offset) else None
  {
  }

  /** The second challenge is the first with the lowest bit of its last octet turned over. */
  lemma FlippedIs(c: Challenge)
    ensures Flipped(c)[5] == c[5] ^ 1 && Flipped(c)[..5] == c[..5]
  {
  }

  lemma FlippedDiffers(c: Challenge)
    ensures Flipped(c) != c
  {
    assert Flipped(c)[5] == c[5] ^ 1;
    assert c[5] ^ 1 != c[5];
  }

  /** A device that answers the second request with its first answer fails, even if the counters agree. */
  lemma ReplayFails<S(!new)>(device: Device<S>, start: S, params: SyncResInject, keyKnown: bool)
    requires forall s, c :: device.request(s, c).0 == device.request(start, params.challenge).0
    ensures !Passes(device, start, params, keyKnown)
  {
    FlippedDiffers(params.challenge);
    var progress := ProgressOf(device, start, params, keyKnown);
    if progress.Injected? {
      var mid := device.request(start, params.challenge).1;
      var after := device.response(mid, progress.sent).value;
      assert device.request(after, Flipped(params.challenge)).0 == device.request(start, params.challenge).0;
    }
  }
}
