/** The gateway's loop over a room, uninterrupted, is a run of the moves of a local delivery. */
module DeliveryLoop {
  import opened OutboxRows
  import opened Gateway
  import opened DeliveryRuns

  /** The moves of the loop over `sockets`, given what the two checks answer. */
  function LoopScript(sockets: seq<SocketId>, authentic: Authentic, member: MemberOf): seq<CallMove>
    decreases sockets
  {
    if sockets == [] then []
    else if !authentic(sockets[0]) then [CheckSession(false)] + LoopScript(sockets[1..], authentic, member)
    else
      [CheckSession(true), CheckMember(member(sockets[0]))] +
      if member(sockets[0]).Unknown? then [] else LoopScript(sockets[1..], authentic, member)
  }

  ghost function HandleAll(w: World, call: Call, moves: seq<CallMove>): Call
    decreases moves
  {
    if moves == [] then call else HandleAll(w, Handled(w, call, moves[0]), moves[1..])
  }

  /** The checks answer as the world is: yes only for a live session, and truly about membership. */
  ghost predicate Truthful(w: World, chat: Chat, sockets: seq<SocketId>, authentic: Authentic, member: MemberOf) {
    forall x :: x in sockets ==>
      && (authentic(x) ==> x in w.sessions)
      && (member(x).Member? ==> (x, chat) in w.members)
      && (member(x).NotMember? ==> (x, chat) !in w.members)
  }

  /** The loop, in one local delivery that nothing interrupts. */
  ghost predicate LoopOf(before: Call, after: Call, sockets: seq<SocketId>, authentic: Authentic, member: MemberOf) {
    && (after.status.Running? <==> forall x :: x in sockets ==> !(authentic(x) && member(x).Unknown?))
    && (after.status.Running? ==>
          && after.todo == []
          && after.sent == before.sent + (set x | x in Entitled(sockets, authentic, member))
          && after.evicted == before.evicted + (set x | x in sockets && !(authentic(x) && member(x).Member?)))
  }

  lemma LoopStep(w: World, call: Call, sockets: seq<SocketId>, authentic: Authentic, member: MemberOf)
    requires sockets != [] && call.todo == sockets && call.status.Running? && call.api in w.live
      && sockets[0] !in call.passed
    requires Truthful(w, call.event.chat, sockets, authentic, member)
    ensures
      var x := sockets[0];
      HandleAll(w, call, LoopScript(sockets, authentic, member)) ==
        if !authentic(x) then HandleAll(w, Evicted(call), LoopScript(sockets[1..], authentic, member))
        else
          var checked := call.(passed := call.passed + {x});
          if member(x).Unknown? then checked.(status := Failed)
          else HandleAll(w, if member(x).Member? then Sent(checked)
            else Evicted(checked), LoopScript(sockets[1..], authentic, member))
  {
    hide HandleAll, LoopScript;
    var x := sockets[0];
    assert x in sockets;
    ScriptStep(sockets, authentic, member);
    var rest := LoopScript(sockets[1..], authentic, member);
    if !authentic(x) {
      HandleStep(w, call, CheckSession(false), rest);
    } else {
      var later := if member(x).Unknown? then [] else rest;
      HandleStep(w, call, CheckSession(true), [CheckMember(member(x))] + later);
      HandleStep(w, call.(passed := call.passed + {x}), CheckMember(member(x)), later);
      HandleNothing(w, call.(passed := call.passed + {x}, status := Failed));
    }
  }

  lemma HandleNothing(w: World, call: Call)
    ensures HandleAll(w, call, []) == call
  {
  }

  lemma HandleStep(w: World, call: Call, m: CallMove, rest: seq<CallMove>)
    ensures HandleAll(w, call, [m] + rest) == HandleAll(w, Handled(w, call, m), rest)
  {
    hide Handled;
    assert ([m] + rest)[1..] == rest;
  }

  lemma ScriptStep(sockets: seq<SocketId>, authentic: Authentic, member: MemberOf)
    requires sockets != []
    ensures
      var x, rest := sockets[0], LoopScript(sockets[1..], authentic, member);
      LoopScript(sockets, authentic, member) ==
        if !authentic(x) then [CheckSession(false)] + rest
        else [CheckSession(true)] + ([CheckMember(member(x))] + if member(x).Unknown? then [] else rest)
  {
  }

  /**
   * Left alone, the moves of a local delivery do what the gateway's loop does: they fail exactly
   * when it does, and otherwise send to the same sockets and disconnect the same sockets.
   */
  lemma {:induction false} LoopIsARun(
      w: World, call: Call, sockets: seq<SocketId>, authentic: Authentic, member: MemberOf)
    requires call.todo == sockets && call.status.Running? && call.api in w.live
    requires forall x :: x in sockets ==> x !in call.passed
    requires forall i, j :: 0 <= i < j < |sockets| ==> sockets[i] != sockets[j]
    requires Truthful(w, call.event.chat, sockets, authentic, member)
    ensures LoopOf(call, HandleAll(w, call, LoopScript(sockets, authentic, member)), sockets, authentic, member)
    decreases sockets
  {
    if sockets != [] {
      var x, rest := sockets[0], sockets[1..];
      assert forall y :: y in sockets <==> y == x || y in rest;
      LoopStep(w, call, sockets, authentic, member);
      if authentic(x) {
        var checked := call.(passed := call.passed + {x});
        if !member(x).Unknown? {
          LoopIsARun(w, if member(x).Member? then Sent(checked) else Evicted(checked), rest, authentic, member);
        }
      } else {
        LoopIsARun(w, Evicted(call), rest, authentic, member);
      }
    }
  }

  /** The same sockets as the gateway's own account of its loop. */
  lemma LoopAgreesWithTheGateway(
      w: World, call: Call, g: Local, sockets: seq<SocketId>, authentic: Authentic, member: MemberOf)
    requires call.todo == sockets && call.status.Running? && call.api in w.live && call.sent == {}
      && call.evicted == {} && call.passed == {}
    requires forall i, j :: 0 <= i < j < |sockets| ==> sockets[i] != sockets[j]
    requires Truthful(w, call.event.chat, sockets, authentic, member)
    ensures
      var steps := HandleAll(w, call, LoopScript(sockets, authentic, member));
      var (after, delivered) := Deliver(g, call.event, sockets, authentic, member);
      && (delivered <==> steps.status.Running?)
      && (delivered ==>
            && after.emitted == g.emitted + Emissions(Entitled(sockets, authentic, member), call.event)
            && steps.sent == (set x | x in Entitled(sockets, authentic, member))
            && after.connected == g.connected - steps.evicted
            && forall x, chat :: (x, chat) in after.joined <==> (x, chat) in g.joined && x !in steps.evicted)
  {
    hide Deliver, HandleAll, LoopScript, Entitled, Truthful;
    DeliveryReachesEveryone(g, call.event, sockets, authentic, member);
    LoopIsARun(w, call, sockets, authentic, member);
  }
}
