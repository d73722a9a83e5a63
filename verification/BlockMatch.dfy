/**
 Matching a block of telegrams in any order (conformance/src/engine.rs): frames
 are read one at a time, secure elements are tried before plain ones, and the
 first unclaimed element that accepts a frame claims it.
 */
module BlockMatch {
  import opened Wrappers
  import opened Telegram
  import opened GreedyMatching

  type Octets = seq<bv8>

  /** Secure parameters of an element; what else they hold only matters to `unwrap`. */
  datatype SecParams = SecParams(keyName: string, association: nat)

  /** A secure element keeps its matcher in the internal frame form it is compared in. */
  datatype BlockExpect =
    | Plain(matcher: TelegramMatcher)
    | Secure(matcher: TelegramMatcher, params: SecParams)

  /** The security test context: the keys by name, and the unwrapping of a raw
      frame into the plain internal frame, which is pure here. */
  datatype SecurityContext = SecurityContext(
    keys: map<string, Octets>,
    unwrap: (Octets, SecParams, Octets) -> Option<Octets>
  )

  datatype Event = Frame(data: Octets) | SocketError | WindowClosed

  predicate AllBuilt(es: seq<BlockExpect>) {
    forall i :: 0 <= i < |es| ==> Built(es[i].matcher)
  }

  predicate ElementAccepts(e: BlockExpect, ctx: Option<SecurityContext>, frame: Octets)
    requires Built(e.matcher)
  {
    match e
    case Plain(matcher) => Accepts(matcher, frame)
    case Secure(matcher, params) =>
      && ctx.Some? && params.keyName in ctx.value.keys
      && (match ctx.value.unwrap(frame, params, ctx.value.keys[params.keyName])
          case None => false
          case Some(plain) => Accepts(matcher, plain))
  }

  /** Whether some frame matches the element. */
  ghost predicate CanMatch(e: BlockExpect, ctx: Option<SecurityContext>)
    requires Built(e.matcher)
  {
    exists frame :: ElementAccepts(e, ctx, frame)
  }

  /** Elements named by index, as an acceptance relation. */
  function Acceptor(es: seq<BlockExpect>, ctx: Option<SecurityContext>): (nat, Octets) -> bool
    requires AllBuilt(es)
  {
    (i: nat, frame: Octets) => i < |es| && ElementAccepts(es[i], ctx, frame)
  }

  /** The elements from `from` on that are secure, or those that are plain. */
  function Indices(es: seq<BlockExpect>, from: nat, secure: bool): seq<nat>
    requires from <= |es|
    decreases |es| - from
  {
    if from == |es| then []
    else (if es[from].Secure? == secure then [from] else []) + Indices(es, from + 1, secure)
  }

  /** The order elements are tried in. */
  function ScanOrder(es: seq<BlockExpect>): seq<nat> {
    Indices(es, 0, true) + Indices(es, 0, false)
  }

  lemma InCons(x: nat, rest: seq<nat>)
    ensures forall i :: i in [x] + rest <==> i == x || i in rest
  {
  }

  lemma {:induction false} IndicesMembers(es: seq<BlockExpect>, from: nat, secure: bool)
    requires from <= |es|
    ensures forall i :: i in Indices(es, from, secure) <==> from <= i < |es| && es[i].Secure? == secure
    decreases |es| - from
  {
    if from < |es| {
      IndicesMembers(es, from + 1, secure);
      var all, rest := Indices(es, from, secure), Indices(es, from + 1, secure);
      if es[from].Secure? == secure {
        assert all == [from] + rest;
        InCons(from, rest);
      } else {
        assert all == [] + rest == rest;
      }
    }
  }

  lemma {:induction false} IndicesDistinct(es: seq<BlockExpect>, from: nat, secure: bool)
    requires from <= |es|
    ensures Distinct(Indices(es, from, secure))
    decreases |es| - from
  {
    if from < |es| {
      IndicesDistinct(es, from + 1, secure);
      IndicesMembers(es, from + 1, secure);
      var rest := Indices(es, from + 1, secure);
      assert forall k :: 0 <= k < |rest| ==> rest[k] in rest;
    }
  }

  lemma {:induction false} IndicesCount(es: seq<BlockExpect>, from: nat)
    requires from <= |es|
    ensures |Indices(es, from, true)| + |Indices(es, from, false)| == |es| - from
    decreases |es| - from
  {
    if from < |es| {
      IndicesCount(es, from + 1);
    }
  }

  lemma ScanOrderCovers(es: seq<BlockExpect>)
    ensures Distinct(ScanOrder(es)) && |Elements(ScanOrder(es))| == |ScanOrder(es)| == |es|
    ensures forall i :: i in ScanOrder(es) <==> 0 <= i < |es|
  {
    IndicesMembers(es, 0, true);
    IndicesMembers(es, 0, false);
    IndicesDistinct(es, 0, true);
    IndicesDistinct(es, 0, false);
    IndicesCount(es, 0);
    DistinctConcat(Indices(es, 0, true), Indices(es, 0, false));
    DistinctSize(ScanOrder(es));
    forall i ensures i in ScanOrder(es) <==> 0 <= i < |es| {
      if 0 <= i < |es| {
        assert i in Indices(es, 0, es[i].Secure?);
      }
    }
  }

  lemma {:induction false} ClaimConcat<F>(a: seq<nat>, b: seq<nat>, free: set<nat>, acc: (nat, F) -> bool, f: F)
    ensures Claim(a + b, free, acc, f)
            == if Claim(a, free, acc, f).Some? then Claim(a, free, acc, f) else Claim(b, free, acc, f)
  {
    if a == [] {
      assert a + b == b;
    } else {
      ClaimConcat(a[1..], b, free, acc, f);
      assert (a + b)[1..] == a[1..] + b;
    }
  }

  /** The frames that arrive before the window closes or the socket fails. */
  function Arriving(events: seq<Event>): seq<Octets> {
    if events == [] || !events[0].Frame? then [] else [events[0].data] + Arriving(events[1..])
  }

  predicate NeedsSecure(es: seq<BlockExpect>) {
    exists i :: 0 <= i < |es| && es[i].Secure?
  }

  predicate KeysKnown(es: seq<BlockExpect>, ctx: Option<SecurityContext>) {
    forall i :: 0 <= i < |es| && es[i].Secure? ==> ctx.Some? && es[i].params.keyName in ctx.value.keys
  }

  function Free(claimed: seq<bool>): set<nat> {
    set i | 0 <= i < |claimed| && !claimed[i]
  }

  /** Which unclaimed element of one kind takes the frame. */
  method ClaimAmong(es: seq<BlockExpect>, ctx: Option<SecurityContext>, claimed: array<bool>, secure: bool,
                    frame: Octets)
    returns (r: Option<nat>)
    requires AllBuilt(es) && claimed.Length == |es|
    ensures r == Claim(Indices(es, 0, secure), Free(claimed[..]), Acceptor(es, ctx), frame)
  {
    for i := 0 to |es|
      invariant Claim(Indices(es, 0, secure), Free(claimed[..]), Acceptor(es, ctx), frame)
             == Claim(Indices(es, i, secure), Free(claimed[..]), Acceptor(es, ctx), frame)
    {
      var order := Indices(es, i, secure);
      if es[i].Secure? == secure {
        assert order[0] == i && order[1..] == Indices(es, i + 1, secure);
        assert Acceptor(es, ctx)(i, frame) == ElementAccepts(es[i], ctx, frame);
      } else {
        assert order == Indices(es, i + 1, secure);
      }
      if !claimed[i] && es[i].Secure? == secure && ElementAccepts(es[i], ctx, frame) {
        return Some(i);
      }
    }
    return None;
  }

  /** What the step decides: as many frames as there are elements arrive, and
      the greedy scan places them all. Frames behind those are left unread. */
  predicate BlockVerdict(es: seq<BlockExpect>, ctx: Option<SecurityContext>, frames: seq<Octets>)
    requires AllBuilt(es)
  {
    && KeysKnown(es, ctx)
    && |es| <= |frames|
    && Greedy(ScanOrder(es), Elements(ScanOrder(es)), Acceptor(es, ctx), frames[..|es|]).Some?
  }

  /** The checks before any frame is read: a secure element needs a context and its key. */
  method ResolveKeys(es: seq<BlockExpect>, ctx: Option<SecurityContext>) returns (ok: bool)
    ensures ok <==> KeysKnown(es, ctx)
  {
    if NeedsSecure(es) && ctx.None? {
      return false;
    }
    for k := 0 to |es|
      invariant forall i :: 0 <= i < k && es[i].Secure? ==> ctx.Some? && es[i].params.keyName in ctx.value.keys
    {
      if es[k].Secure? && es[k].params.keyName !in ctx.value.keys {
        return false;
      }
    }
    return true;
  }

  /** Offer a frame to the unclaimed elements, secure ones first. */
  method ClaimFrame(es: seq<BlockExpect>, ctx: Option<SecurityContext>, claimed: array<bool>, frame: Octets)
    returns (r: Option<nat>)
    requires AllBuilt(es) && claimed.Length == |es|
    modifies claimed
    ensures r == Claim(ScanOrder(es), old(Free(claimed[..])), Acceptor(es, ctx), frame)
    ensures r.Some? ==> r.value in old(Free(claimed[..]))
    ensures Free(claimed[..]) == if r.Some? then old(Free(claimed[..])) - {r.value} else old(Free(claimed[..]))
  {
    ClaimConcat(Indices(es, 0, true), Indices(es, 0, false), Free(claimed[..]), Acceptor(es, ctx), frame);
    ClaimIsFirst(ScanOrder(es), Free(claimed[..]), Acceptor(es, ctx), frame);
    r := ClaimAmong(es, ctx, claimed, true, frame);
    if r.None? {
      r := ClaimAmong(es, ctx, claimed, false, frame);
    }
    if r.Some? {
      ghost var before := claimed[..];
      claimed[r.value] := true;
      assert claimed[..] == before[r.value := true];
    }
  }

  lemma ArrivingSplit(events: seq<Event>, k: nat, all: seq<Octets>)
    requires k < |events| && Arriving(events[k..]) == all
    ensures events[k].Frame? ==> all != [] && all[0] == events[k].data && Arriving(events[k + 1..]) == all[1..]
    ensures !events[k].Frame? ==> all == []
  {
    assert events[k..][1..] == events[k + 1..];
  }

  lemma NoneFree(claimed: seq<bool>)
    ensures (exists i :: 0 <= i < |claimed| && !claimed[i]) <==> Free(claimed) != {}
    ensures (forall i :: 0 <= i < |claimed| ==> !claimed[i]) ==> forall i :: i in Free(claimed) <==> 0 <= i < |claimed|
  {
    if i :| 0 <= i < |claimed| && !claimed[i] {
      assert i in Free(claimed);
    }
  }

  /** Whether the greedy scan places all of `frames` among the elements in `open`. */
  predicate Places(es: seq<BlockExpect>, ctx: Option<SecurityContext>, open: set<nat>, frames: seq<Octets>)
    requires AllBuilt(es)
  {
    Greedy(ScanOrder(es), open, Acceptor(es, ctx), frames).Some?
  }

  lemma PlacesStep(es: seq<BlockExpect>, ctx: Option<SecurityContext>, open: set<nat>, frames: seq<Octets>, k: nat)
    requires AllBuilt(es) && k < |frames|
    ensures var claim := Claim(ScanOrder(es), open, Acceptor(es, ctx), frames[k]);
            Places(es, ctx, open, frames[k..])
            <==> claim.Some? && Places(es, ctx, open - {claim.value}, frames[k + 1..])
  {
    assert frames[k..][0] == frames[k] && frames[k..][1..] == frames[k + 1..];
  }

  /** One turn of the frame loop: the scan goes on exactly if the frame finds an element. */
  method PlaceFrame(es: seq<BlockExpect>, ctx: Option<SecurityContext>, claimed: array<bool>, frame: Octets,
                    ghost open: set<nat>, ghost frames: seq<Octets>, ghost k: nat)
    returns (placed: bool, ghost rest: set<nat>)
    requires AllBuilt(es) && claimed.Length == |es| && open == Free(claimed[..])
    requires k < |frames| && frames[k] == frame
    modifies claimed
    ensures !placed ==> !Places(es, ctx, open, frames[k..])
    ensures placed ==> rest == Free(claimed[..]) && |rest| == |open| - 1
    ensures placed ==> (Places(es, ctx, open, frames[k..]) <==> Places(es, ctx, rest, frames[k + 1..]))
  {
    PlacesStep(es, ctx, open, frames, k);
    var claim := ClaimFrame(es, ctx, claimed, frame);
    placed := claim.Some?;
    rest := if placed then open - {claim.value} else open;
  }

  method ExpectBlock(es: seq<BlockExpect>, ctx: Option<SecurityContext>, events: seq<Event>)
    returns (ok: bool, used: nat)
    requires AllBuilt(es)
    ensures ok <==> BlockVerdict(es, ctx, Arriving(events))
    ensures !KeysKnown(es, ctx) ==> used == 0
    ensures ok ==> used == |es|
  {
    used := 0;
    var ready := ResolveKeys(es, ctx);
    if !ready {
      return false, 0;
    }
    var claimed := new bool[|es|](_ => false);
    ghost var open := Elements(ScanOrder(es));
    ScanOrderCovers(es);
    NoneFree(claimed[..]);
    assert open == Free(claimed[..]);
    ok, used := ClaimAll(es, ctx, events, claimed, open);
  }

  /** The frame loop, all elements being unclaimed. */
  method ClaimAll(es: seq<BlockExpect>, ctx: Option<SecurityContext>, events: seq<Event>, claimed: array<bool>,
                  ghost all: set<nat>)
    returns (ok: bool, used: nat)
    requires AllBuilt(es) && claimed.Length == |es| && Free(claimed[..]) == all && |all| == |es|
    modifies claimed
    ensures ok <==> |es| <= |Arriving(events)| && Places(es, ctx, all, Arriving(events)[..|es|])
    ensures ok ==> used == |es|
  {
    used := 0;
    ghost var arriving := Arriving(events);
    ghost var frames := arriving[..Min(|es|, |arriving|)];
    ghost var open := all;
    while exists i :: 0 <= i < claimed.Length && !claimed[i]
      invariant used <= |frames| && used <= |events| && Arriving(events[used..]) == arriving[used..]
      invariant open == Free(claimed[..]) && |open| == |es| - used
      invariant Places(es, ctx, all, frames) <==> Places(es, ctx, open, frames[used..])
      decreases |es| - used
    {
      NoneFree(claimed[..]);
      if used == |events| {
        return false, used;
      }
      ArrivingSplit(events, used, arriving[used..]);
      if !events[used].Frame? {
        return false, used;
      }
      var placed;
      placed, open := PlaceFrame(es, ctx, claimed, events[used].data, open, frames, used);
      used := used + 1;
      if !placed {
        return false, used;
      }
    }
    NoneFree(claimed[..]);
    return true, used;
  }

  // ---------------------------------------------------------------------
  // What the verdict means
  // ---------------------------------------------------------------------

  /** `frame` has the length of the matcher's octets and equals them under each mask; bit 5 of the
      first octet, the repeat flag, never counts. */
  predicate AgreesWith(frame: Octets, m: TelegramMatcher)
    requires Built(m)
  {
    && |frame| == |m.expected|
    && forall i :: 0 <= i < |frame| ==>
         var mask := if i == 0 then m.masks[i] & 0xDF else m.masks[i];
         frame[i] & mask == m.expected[i] & mask
  }

  /** A plain element takes a frame that agrees with it as it is on the wire; a secure one takes a
      frame that unwraps, with the key of its name, to a plain frame that agrees with it. */
  ghost predicate Fits(e: BlockExpect, ctx: Option<SecurityContext>, frame: Octets)
    requires Built(e.matcher)
  {
    || (e.Plain? && AgreesWith(frame, e.matcher))
    || (e.Secure? && ctx.Some? && e.params.keyName in ctx.value.keys
        && exists plain :: ctx.value.unwrap(frame, e.params, ctx.value.keys[e.params.keyName]) == Some(plain)
                           && AgreesWith(plain, e.matcher))
  }

  lemma AgreesIsAccepted(frame: Octets, m: TelegramMatcher)
    requires Built(m)
    ensures Accepts(m, frame) <==> AgreesWith(frame, m)
  {
    AcceptsUnderMasks(m, frame);
  }

  lemma FitsIsAccepted(e: BlockExpect, ctx: Option<SecurityContext>, frame: Octets)
    requires Built(e.matcher)
    ensures ElementAccepts(e, ctx, frame) <==> Fits(e, ctx, frame)
  {
    if e.Plain? {
      AgreesIsAccepted(frame, e.matcher);
    } else if ctx.Some? && e.params.keyName in ctx.value.keys {
      var unwrapped := ctx.value.unwrap(frame, e.params, ctx.value.keys[e.params.keyName]);
      if unwrapped.Some? {
        AgreesIsAccepted(unwrapped.value, e.matcher);
      }
    }
  }

  /** Secure elements come before plain ones, and within a kind the order is that of the block. */
  predicate Earlier(es: seq<BlockExpect>, i: nat, j: nat)
    requires i < |es| && j < |es|
  {
    (es[i].Secure? && es[j].Plain?) || (es[i].Secure? == es[j].Secure? && i < j)
  }

  /** Element `i` takes `frame`, those in `taken` being taken: it fits, and every other
      free element that fits comes later. */
  ghost predicate Takes(es: seq<BlockExpect>, ctx: Option<SecurityContext>, taken: seq<nat>, frame: Octets, i: nat)
    requires AllBuilt(es)
  {
    && i < |es| && i !in taken && Fits(es[i], ctx, frame)
    && forall j: nat :: j < |es| && j != i && j !in taken && Fits(es[j], ctx, frame) ==> Earlier(es, i, j)
  }

  lemma {:induction false} IndicesIncrease(es: seq<BlockExpect>, from: nat, secure: bool)
    requires from <= |es|
    ensures forall a, b :: 0 <= a < b < |Indices(es, from, secure)| ==>
              Indices(es, from, secure)[a] < Indices(es, from, secure)[b]
    decreases |es| - from
  {
    if from < |es| {
      IndicesIncrease(es, from + 1, secure);
      IndicesMembers(es, from + 1, secure);
      var rest := Indices(es, from + 1, secure);
      assert forall k :: 0 <= k < |rest| ==> rest[k] in rest;
    }
  }

  lemma ScanOrderSorted(es: seq<BlockExpect>, a: nat, b: nat)
    requires a < b < |ScanOrder(es)|
    ensures ScanOrder(es)[a] < |es| && ScanOrder(es)[b] < |es|
    ensures Earlier(es, ScanOrder(es)[a], ScanOrder(es)[b])
  {
    var secure, plain := Indices(es, 0, true), Indices(es, 0, false);
    IndicesMembers(es, 0, true);
    IndicesMembers(es, 0, false);
    IndicesIncrease(es, 0, true);
    IndicesIncrease(es, 0, false);
    assert ScanOrder(es)[a] in if a < |secure| then secure else plain;
    assert ScanOrder(es)[b] in if b < |secure| then secure else plain;
  }

  lemma FreeElements(es: seq<BlockExpect>, ctx: Option<SecurityContext>, taken: seq<nat>, frame: Octets, j: nat)
    requires AllBuilt(es) && j < |es|
    ensures j in Elements(ScanOrder(es)) - Elements(taken) <==> j !in taken
    ensures Acceptor(es, ctx)(j, frame) <==> Fits(es[j], ctx, frame)
  {
    ScanOrderCovers(es);
    FitsIsAccepted(es[j], ctx, frame);
  }

  lemma ClaimTakes(es: seq<BlockExpect>, ctx: Option<SecurityContext>, taken: seq<nat>, frame: Octets, i: nat)
    requires AllBuilt(es)
    requires Claim(ScanOrder(es), Elements(ScanOrder(es)) - Elements(taken), Acceptor(es, ctx), frame) == Some(i)
    ensures Takes(es, ctx, taken, frame, i)
  {
    var order, acc := ScanOrder(es), Acceptor(es, ctx);
    var free := Elements(order) - Elements(taken);
    ScanOrderCovers(es);
    ClaimIsFirst(order, free, acc, frame);
    FreeElements(es, ctx, taken, frame, i);
    var k :| 0 <= k < |order| && order[k] == i && forall j :: 0 <= j < k && order[j] in free ==> !acc(order[j], frame);
    forall j: nat | j < |es| && j != i && j !in taken && Fits(es[j], ctx, frame) ensures Earlier(es, i, j) {
      FreeElements(es, ctx, taken, frame, j);
      var b :| 0 <= b < |order| && order[b] == j;
      ScanOrderSorted(es, k, b);
    }
  }

  lemma SomeClaim(es: seq<BlockExpect>, ctx: Option<SecurityContext>, taken: seq<nat>, frame: Octets, i: nat)
    requires AllBuilt(es) && Takes(es, ctx, taken, frame, i)
    ensures Claim(ScanOrder(es), Elements(ScanOrder(es)) - Elements(taken), Acceptor(es, ctx), frame).Some?
  {
    ScanOrderCovers(es);
    ClaimIsFirst(ScanOrder(es), Elements(ScanOrder(es)) - Elements(taken), Acceptor(es, ctx), frame);
    FreeElements(es, ctx, taken, frame, i);
    assert i in ScanOrder(es);
  }

  lemma TakesIsClaim(es: seq<BlockExpect>, ctx: Option<SecurityContext>, taken: seq<nat>, frame: Octets, i: nat)
    requires AllBuilt(es)
    ensures Takes(es, ctx, taken, frame, i)
            <==> Claim(ScanOrder(es), Elements(ScanOrder(es)) - Elements(taken), Acceptor(es, ctx), frame) == Some(i)
  {
    var claim := Claim(ScanOrder(es), Elements(ScanOrder(es)) - Elements(taken), Acceptor(es, ctx), frame);
    if Takes(es, ctx, taken, frame, i) {
      SomeClaim(es, ctx, taken, frame, i);
    }
    if claim.Some? {
      ClaimTakes(es, ctx, taken, frame, claim.value);
    }
  }

  /** Each frame in turn is taken, after those taken before, by the element `p` names. */
  ghost predicate TakesInTurn(es: seq<BlockExpect>, ctx: Option<SecurityContext>, taken: seq<nat>,
                              frames: seq<Octets>, p: seq<nat>)
    requires AllBuilt(es) && |p| == |frames|
  {
    forall k :: 0 <= k < |frames| ==> Takes(es, ctx, taken + p[..k], frames[k], p[k])
  }

  lemma TakesInTurnStep(es: seq<BlockExpect>, ctx: Option<SecurityContext>, taken: seq<nat>, frames: seq<Octets>,
                        p: seq<nat>)
    requires AllBuilt(es) && |p| == |frames| && frames != []
    ensures TakesInTurn(es, ctx, taken, frames, p)
            <==> Takes(es, ctx, taken, frames[0], p[0]) && TakesInTurn(es, ctx, taken + [p[0]], frames[1..], p[1..])
  {
    var later := taken + [p[0]];
    assert taken + p[..0] == taken;
    forall k | 0 <= k < |frames| - 1
      ensures Takes(es, ctx, later + p[1..][..k], frames[1..][k], p[1..][k])
              <==> Takes(es, ctx, taken + p[..k + 1], frames[k + 1], p[k + 1])
    {
      assert later + p[1..][..k] == taken + p[..k + 1];
    }
    if Takes(es, ctx, taken, frames[0], p[0]) && TakesInTurn(es, ctx, later, frames[1..], p[1..]) {
      forall k | 0 <= k < |frames| ensures Takes(es, ctx, taken + p[..k], frames[k], p[k]) {
        if k > 0 {
          assert Takes(es, ctx, later + p[1..][..k - 1], frames[1..][k - 1], p[1..][k - 1]);
        }
      }
    }
  }

  lemma {:induction false} GreedyTakes(es: seq<BlockExpect>, ctx: Option<SecurityContext>, taken: seq<nat>,
                                       frames: seq<Octets>, p: seq<nat>)
    requires AllBuilt(es) && |p| == |frames|
    ensures Greedy(ScanOrder(es), Elements(ScanOrder(es)) - Elements(taken), Acceptor(es, ctx), frames) == Some(p)
            <==> TakesInTurn(es, ctx, taken, frames, p)
    decreases |frames|
  {
    if frames != [] {
      TakesIsClaim(es, ctx, taken, frames[0], p[0]);
      TakesInTurnStep(es, ctx, taken, frames, p);
      GreedyTakes(es, ctx, taken + [p[0]], frames[1..], p[1..]);
      var all := Elements(ScanOrder(es));
      assert all - Elements(taken) - {p[0]} == all - Elements(taken + [p[0]]);
      assert p == [p[0]] + p[1..];
    }
  }

  /** The verdict without the scan: the keys are known, enough frames arrive, and each frame in turn is
      taken by the first free element, secure ones first, that it fits. */
  lemma VerdictIff(es: seq<BlockExpect>, ctx: Option<SecurityContext>, frames: seq<Octets>)
    requires AllBuilt(es)
    ensures BlockVerdict(es, ctx, frames)
            <==> && (forall i :: 0 <= i < |es| && es[i].Secure? ==>
                       ctx.Some? && es[i].params.keyName in ctx.value.keys)
                 && |es| <= |frames|
                 && exists p: seq<nat> :: |p| == |es|
                      && forall k :: 0 <= k < |es| ==> Takes(es, ctx, p[..k], frames[k], p[k])
  {
    if |es| <= |frames| {
      var order, acc := ScanOrder(es), Acceptor(es, ctx);
      var read := frames[..|es|];
      assert Elements(order) - Elements([]) == Elements(order);
      forall p: seq<nat> | |p| == |es|
        ensures Greedy(order, Elements(order), acc, read) == Some(p)
                <==> forall k :: 0 <= k < |es| ==> Takes(es, ctx, p[..k], frames[k], p[k])
      {
        GreedyTakes(es, ctx, [], read, p);
        assert forall k :: 0 <= k < |es| ==> [] + p[..k] == p[..k];
      }
      if Greedy(order, Elements(order), acc, read).Some? {
        GreedySound(order, Elements(order), acc, read);
      }
    }
  }

  /** A block of one element passes exactly when its key is known, if it needs one, and the first
      frame to arrive fits it. */
  lemma SingleVerdict(e: BlockExpect, ctx: Option<SecurityContext>, frames: seq<Octets>)
    requires Built(e.matcher)
    ensures AllBuilt([e])
    ensures e.Plain? ==> (BlockVerdict([e], ctx, frames) <==> frames != [] && AgreesWith(frames[0], e.matcher))
    ensures e.Secure? ==>
              (BlockVerdict([e], ctx, frames) <==>
                 && frames != [] && ctx.Some? && e.params.keyName in ctx.value.keys
                 && exists plain ::
                      && ctx.value.unwrap(frames[0], e.params, ctx.value.keys[e.params.keyName]) == Some(plain)
                      && AgreesWith(plain, e.matcher))
  {
    VerdictIff([e], ctx, frames);
    if frames != [] {
      assert [e][0] == e;
      forall p: seq<nat> | |p| == 1
        ensures Takes([e], ctx, p[..0], frames[0], p[0]) <==> p[0] == 0 && Fits(e, ctx, frames[0])
      {
      }
      assert [0][0] == 0;
    }
  }

  /** The frames that count are those before the first event that is not a frame. */
  lemma {:induction false} ArrivingIs(events: seq<Event>)
    ensures |Arriving(events)| <= |events|
    ensures forall k :: 0 <= k < |Arriving(events)| ==> events[k] == Frame(Arriving(events)[k])
    ensures |Arriving(events)| < |events| ==> !events[|Arriving(events)|].Frame?
  {
    if events != [] && events[0].Frame? {
      ArrivingIs(events[1..]);
    }
  }

  /** A pass assigns the frames read to the elements one to one, each to an element it fits: a plain
      element agrees with the frame itself, a secure one with what the frame unwraps to. */
  lemma PassIsBijection(es: seq<BlockExpect>, ctx: Option<SecurityContext>, frames: seq<Octets>) returns (p: seq<nat>)
    requires AllBuilt(es) && BlockVerdict(es, ctx, frames)
    ensures |p| == |es| && Distinct(p) && (forall i :: 0 <= i < |es| ==> i in p)
    ensures forall k :: 0 <= k < |p| ==> p[k] < |es|
    ensures forall k :: 0 <= k < |p| && es[p[k]].Plain? ==> AgreesWith(frames[k], es[p[k]].matcher)
    ensures forall k :: 0 <= k < |p| && es[p[k]].Secure? ==>
              var e := es[p[k]];
              && ctx.Some? && e.params.keyName in ctx.value.keys
              && exists plain :: ctx.value.unwrap(frames[k], e.params, ctx.value.keys[e.params.keyName]) == Some(plain)
                                 && AgreesWith(plain, e.matcher)
  {
    var order := ScanOrder(es);
    var acc := Acceptor(es, ctx);
    GreedySound(order, Elements(order), acc, frames[..|es|]);
    p := Greedy(order, Elements(order), acc, frames[..|es|]).value;
    ScanOrderCovers(es);
    DistinctSize(p);
    assert Elements(p) <= Elements(order);
    SameSizeSubset(Elements(p), Elements(order));
    forall i | 0 <= i < |es| ensures i in p {
      assert i in Elements(p);
    }
    forall k | 0 <= k < |p| ensures p[k] < |es| && Fits(es[p[k]], ctx, frames[k]) {
      assert acc(p[k], frames[..|es|][k]);
      FitsIsAccepted(es[p[k]], ctx, frames[k]);
    }
  }

  /** Elements accept the same frames or none in common. */
  ghost predicate Separable(es: seq<BlockExpect>, ctx: Option<SecurityContext>)
    requires AllBuilt(es)
  {
    forall a, b :: 0 <= a < |es| && 0 <= b < |es| ==>
      (forall f :: ElementAccepts(es[a], ctx, f) == ElementAccepts(es[b], ctx, f))
      || (forall f :: !(ElementAccepts(es[a], ctx, f) && ElementAccepts(es[b], ctx, f)))
  }

  /** Whenever two elements share a frame, the one tried first accepts no more than the other. */
  ghost predicate BlockNested(es: seq<BlockExpect>, ctx: Option<SecurityContext>)
    requires AllBuilt(es)
  {
    Nested(ScanOrder(es), Acceptor(es, ctx))
  }

  lemma SeparableIsNested(es: seq<BlockExpect>, ctx: Option<SecurityContext>)
    requires AllBuilt(es) && Separable(es, ctx)
    ensures BlockNested(es, ctx)
  {
    var order, acc := ScanOrder(es), Acceptor(es, ctx);
    ScanOrderCovers(es);
    forall a, b | 0 <= a < |order| && 0 <= b < |order|
      ensures (forall f :: acc(order[a], f) == acc(order[b], f))
              || (forall f :: !(acc(order[a], f) && acc(order[b], f)))
    {
      assert order[a] in order && order[b] in order;
    }
    SameOrDisjointIsNested(order, acc);
  }

  /** Under nesting the step passes exactly when the frames read fit the elements in some way. */
  lemma PassIffMatchable(es: seq<BlockExpect>, ctx: Option<SecurityContext>, frames: seq<Octets>)
    requires AllBuilt(es) && BlockNested(es, ctx) && KeysKnown(es, ctx) && |es| <= |frames|
    ensures BlockVerdict(es, ctx, frames)
            <==> Matchable(Elements(ScanOrder(es)), Acceptor(es, ctx), frames[..|es|])
  {
    GreedyIffMatchable(ScanOrder(es), Elements(ScanOrder(es)), Acceptor(es, ctx), frames[..|es|]);
  }

  /** So the order of arrival within the block does not matter. */
  lemma ArrivalOrderIrrelevant(es: seq<BlockExpect>, ctx: Option<SecurityContext>, frames: seq<Octets>,
                               other: seq<Octets>)
    requires AllBuilt(es) && BlockNested(es, ctx)
    requires |frames| == |other| == |es| && multiset(frames) == multiset(other)
    ensures BlockVerdict(es, ctx, frames) <==> BlockVerdict(es, ctx, other)
  {
    assert frames[..|es|] == frames && other[..|es|] == other;
    VerdictIgnoresOrder(ScanOrder(es), Elements(ScanOrder(es)), Acceptor(es, ctx), frames, other);
  }

  /** Nesting is exactly what the greedy scan needs: elements that each accept
      something and are not nested have a block of frames that fits and fails. */
  lemma BlockCompleteIffNested(es: seq<BlockExpect>, ctx: Option<SecurityContext>)
    requires AllBuilt(es) && KeysKnown(es, ctx)
    requires forall i :: 0 <= i < |es| ==> CanMatch(es[i], ctx)
    ensures BlockNested(es, ctx) <==>
            forall frames :: |frames| == |es| && Matchable(Elements(ScanOrder(es)), Acceptor(es, ctx), frames)
                             ==> BlockVerdict(es, ctx, frames)
  {
    var order, acc := ScanOrder(es), Acceptor(es, ctx);
    ScanOrderCovers(es);
    assert Inhabited(order, acc) by {
      forall k | 0 <= k < |order| ensures AcceptsSomething(acc, order[k]) {
        assert order[k] in order;
        var f :| ElementAccepts(es[order[k]], ctx, f);
        AcceptsWitness(acc, order[k], f);
      }
    }
    CompleteIffNested(order, acc);
    forall frames | |frames| == |es|
      ensures BlockVerdict(es, ctx, frames) <==> Greedy(order, Elements(order), acc, frames).Some?
    {
      assert frames[..|es|] == frames;
    }
  }

  /** Whether permuting a full block of frames can never change the verdict. */
  ghost predicate OrderIrrelevant(es: seq<BlockExpect>, ctx: Option<SecurityContext>)
    requires AllBuilt(es)
  {
    forall frames, other ::
      |frames| == |other| == |es| && multiset(frames) == multiset(other)
      ==> (BlockVerdict(es, ctx, frames) <==> BlockVerdict(es, ctx, other))
  }

  /** Nesting is exactly what makes the order of arrival irrelevant, too: any fit succeeds in scan order. */
  lemma OrderIrrelevantIffNested(es: seq<BlockExpect>, ctx: Option<SecurityContext>)
    requires AllBuilt(es) && KeysKnown(es, ctx)
    requires forall i :: 0 <= i < |es| ==> CanMatch(es[i], ctx)
    ensures OrderIrrelevant(es, ctx) <==> BlockNested(es, ctx)
  {
    if BlockNested(es, ctx) {
      forall frames, other | |frames| == |other| == |es| && multiset(frames) == multiset(other)
        ensures BlockVerdict(es, ctx, frames) <==> BlockVerdict(es, ctx, other)
      {
        ArrivalOrderIrrelevant(es, ctx, frames, other);
      }
    } else {
      BlockCompleteIffNested(es, ctx);
      var order, acc := ScanOrder(es), Acceptor(es, ctx);
      var frames :| |frames| == |es| && Matchable(Elements(order), acc, frames) && !BlockVerdict(es, ctx, frames);
      ScanOrderCovers(es);
      var other := RearrangedSucceeds(order, acc, frames);
      assert other[..|es|] == other;
      assert BlockVerdict(es, ctx, other);
    }
  }
}
