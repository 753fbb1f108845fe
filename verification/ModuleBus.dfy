/**
  The message bus between modules: a queue that handlers may extend while it is emptied, and
  queries that are answered at once, however deeply they nest.
 */
module ModuleBus {
  import opened Text

  datatype Message = Message(msgtype: int, text: string)

  const MSGTYPE_INPUT := 1

  /**
    A message together with what the handlers will do when it reaches them: a list of actions
    per module, each action again a message with its reactions.
   */
  datatype Call = Call(msg: Message, reactions: seq<Actions>)
  datatype Actions = Stop | Act(first: Action, rest: Actions)
  datatype Action = Send(call: Call) | Query(call: Call)

  // ---- sizes: every reaction is smaller than the message that provokes it --------------

  function Size(call: Call): nat
    decreases call
  {
    1 + ReactionsSize(call.reactions)
  }

  function ReactionsSize(reactions: seq<Actions>): nat
    decreases reactions
  {
    if reactions == [] then 0 else ActionsSize(reactions[0]) + ReactionsSize(reactions[1..])
  }

  function ActionsSize(actions: Actions): nat
    decreases actions
  {
    if actions.Stop? then 0 else 1 + Size(actions.first.call) + ActionsSize(actions.rest)
  }

  lemma {:induction false} ReactionFits(reactions: seq<Actions>, m: nat)
    requires m < |reactions|
    ensures ActionsSize(reactions[m]) <= ReactionsSize(reactions)
    decreases m
  {
    if m > 0 {
      ReactionFits(reactions[1..], m - 1);
    }
  }

  // ---- what the handlers do ----------------------------------------------------------------

  function List(actions: Actions): seq<Action> {
    if actions.Stop? then [] else [actions.first] + List(actions.rest)
  }

  /** What the handler of module `m` does; a module without a handler does nothing. */
  function Reaction(handlers: seq<bool>, call: Call, m: nat): Actions
    requires m < |handlers|
  {
    if handlers[m] && m < |call.reactions| then call.reactions[m] else Stop
  }

  /** What the handlers do, module by module, from module `m` on. */
  function Direct(handlers: seq<bool>, call: Call, m: nat): seq<Action>
    requires m <= |handlers|
    decreases |handlers| - m
  {
    if m == |handlers| then [] else List(Reaction(handlers, call, m)) + Direct(handlers, call, m + 1)
  }

  /** The messages sent by these actions. */
  function Sent(actions: seq<Action>): seq<Message>
    decreases |actions|
  {
    if actions == [] then []
    else (if actions[0].Send? then [actions[0].call.msg] else []) + Sent(actions[1..])
  }

  function SentCalls(actions: Actions): seq<Call> {
    if actions.Stop? then []
    else (if actions.first.Send? then [actions.first.call] else []) + SentCalls(actions.rest)
  }

  /** The messages a message provokes outside of queries, in the modules before `m`. */
  function Spawned(handlers: seq<bool>, call: Call, m: nat): seq<Call>
    requires m <= |handlers|
  {
    if m == 0 then [] else Spawned(handlers, call, m - 1) + SentCalls(Reaction(handlers, call, m - 1))
  }

  /** `INPUT reload` is handled by the bus itself. */
  predicate Reload(msg: Message) {
    msg.msgtype == MSGTYPE_INPUT && SameText(msg.text, "reload")
  }

  function Children(handlers: seq<bool>, call: Call): seq<Call> {
    if Reload(call.msg) then [] else Spawned(handlers, call, |handlers|)
  }

  function TotalSize(calls: seq<Call>): nat
    decreases |calls|
  {
    if calls == [] then 0 else Size(calls[0]) + TotalSize(calls[1..])
  }

  lemma {:induction false} TotalSizeConcat(a: seq<Call>, b: seq<Call>)
    ensures TotalSize(a + b) == TotalSize(a) + TotalSize(b)
    decreases |a|
  {
    if a == [] {
      assert a + b == b;
    } else {
      assert (a + b)[0] == a[0] && (a + b)[1..] == a[1..] + b;
      TotalSizeConcat(a[1..], b);
    }
  }

  lemma {:induction false} SentCallsSize(actions: Actions)
    ensures TotalSize(SentCalls(actions)) <= ActionsSize(actions)
    decreases actions
  {
    if actions.Act? {
      SentCallsSize(actions.rest);
      if actions.first.Send? {
        assert ([actions.first.call] + SentCalls(actions.rest))[1..] == SentCalls(actions.rest);
      } else {
        assert SentCalls(actions) == SentCalls(actions.rest);
      }
    }
  }

  function SizeBefore(reactions: seq<Actions>, m: nat): nat {
    if m == 0 then 0
    else SizeBefore(reactions, m - 1) + (if m <= |reactions| then ActionsSize(reactions[m - 1]) else 0)
  }

  lemma {:induction false} SizeBeforeFront(reactions: seq<Actions>, m: nat)
    requires reactions != [] && m > 0
    ensures SizeBefore(reactions, m) == ActionsSize(reactions[0]) + SizeBefore(reactions[1..], m - 1)
    decreases m
  {
    if m > 1 {
      SizeBeforeFront(reactions, m - 1);
    }
  }

  lemma {:induction false} SizeBeforeFits(reactions: seq<Actions>, m: nat)
    ensures SizeBefore(reactions, m) <= ReactionsSize(reactions)
    decreases m
  {
    if m > 0 {
      if reactions == [] {
        SizeBeforeFits(reactions, m - 1);
      } else {
        SizeBeforeFront(reactions, m);
        SizeBeforeFits(reactions[1..], m - 1);
      }
    }
  }

  lemma {:induction false} SpawnedSize(handlers: seq<bool>, call: Call, m: nat)
    requires m <= |handlers|
    ensures TotalSize(Spawned(handlers, call, m)) <= SizeBefore(call.reactions, m)
    decreases m
  {
    hide ReactionsSize, SentCalls;
    if m > 0 {
      var reaction := Reaction(handlers, call, m - 1);
      SpawnedSize(handlers, call, m - 1);
      SentCallsSize(reaction);
      TotalSizeConcat(Spawned(handlers, call, m - 1), SentCalls(reaction));
    }
  }

  lemma ChildrenSmaller(handlers: seq<bool>, call: Call)
    ensures TotalSize(Children(handlers, call)) < Size(call)
  {
    SpawnedSize(handlers, call, |handlers|);
    SizeBeforeFits(call.reactions, |handlers|);
  }

  /** The messages in the order in which they leave the queue. */
  function Delivery(handlers: seq<bool>, queue: seq<Call>): seq<Message>
    decreases TotalSize(queue)
  {
    if queue == [] then []
    else
      ChildrenSmaller(handlers, queue[0]);
      TotalSizeConcat(queue[1..], Children(handlers, queue[0]));
      [queue[0].msg] + Delivery(handlers, queue[1..] + Children(handlers, queue[0]))
  }

  function Messages(calls: seq<Call>): (r: seq<Message>)
    ensures |r| == |calls|
    decreases |calls|
  {
    if calls == [] then [] else [calls[0].msg] + Messages(calls[1..])
  }

  lemma {:induction false} MessagesConcat(a: seq<Call>, b: seq<Call>)
    ensures Messages(a + b) == Messages(a) + Messages(b)
    decreases |a|
  {
    if a == [] {
      assert a + b == b;
    } else {
      assert (a + b)[0] == a[0] && (a + b)[1..] == a[1..] + b;
      MessagesConcat(a[1..], b);
      assert [a[0].msg] + (Messages(a[1..]) + Messages(b)) == ([a[0].msg] + Messages(a[1..])) + Messages(b);
    }
  }

  /** All that a generation of messages provokes, in order. */
  function NextGeneration(handlers: seq<bool>, calls: seq<Call>): seq<Call>
    decreases |calls|
  {
    if calls == [] then [] else Children(handlers, calls[0]) + NextGeneration(handlers, calls[1..])
  }

  lemma {:induction false} DeliveryFrom(handlers: seq<bool>, now: seq<Call>, later: seq<Call>)
    ensures Delivery(handlers, now + later)
         == Messages(now) + Delivery(handlers, later + NextGeneration(handlers, now))
    decreases |now|
  {
    hide Children, Messages;
    if now == [] {
      assert now + later == later && later + [] == later;
      NoMessages();
    } else {
      var kids, rest := Children(handlers, now[0]), now[1..];
      assert (now + later)[0] == now[0] && (now + later)[1..] == rest + later;
      assert rest + later + kids == rest + (later + kids);
      DeliveryFrom(handlers, rest, later + kids);
      assert later + kids + NextGeneration(handlers, rest) == later + NextGeneration(handlers, now);
      FirstMessage(now);
    }
  }

  lemma NoMessages()
    ensures Messages([]) == []
  {
  }

  lemma OneMessage(call: Call)
    ensures Messages([call]) == [call.msg]
  {
  }

  lemma FirstMessage(calls: seq<Call>)
    requires calls != []
    ensures Messages(calls) == [calls[0].msg] + Messages(calls[1..])
  {
  }

  /**
    Delivery goes generation by generation: everything queued is delivered, in order, before
    anything it provokes, and what it provokes keeps the order of its causes.
   */
  lemma {:induction false} DeliveryByGenerations(handlers: seq<bool>, queue: seq<Call>)
    ensures Delivery(handlers, queue) == Messages(queue) + Delivery(handlers, NextGeneration(handlers, queue))
  {
    DeliveryFrom(handlers, queue, []);
    assert queue + [] == queue && [] + NextGeneration(handlers, queue) == NextGeneration(handlers, queue);
  }

  /** What a module with a handler gets to see. */
  function Seen(messages: seq<Message>): seq<Message>
    decreases |messages|
  {
    if messages == [] then []
    else (if Reload(messages[0]) then [] else [messages[0]]) + Seen(messages[1..])
  }

  lemma {:induction false} SeenLast(messages: seq<Message>, msg: Message)
    ensures Seen(messages + [msg]) == Seen(messages) + (if Reload(msg) then [] else [msg])
    decreases |messages|
  {
    hide Reload;
    if messages != [] {
      assert (messages + [msg])[1..] == messages[1..] + [msg];
      SeenLast(messages[1..], msg);
    }
  }

  /** Exactly the input messages spelt `reload` are kept from the modules. */
  lemma {:induction false} ReloadIff(msg: Message)
    ensures Seen([msg]) == [] <==> msg.msgtype == 1 && SameSpelling(msg.text, "reload")
    ensures Seen([msg]) == [] || Seen([msg]) == [msg]
  {
    SameTextIff(msg.text, "reload");
    assert [msg][1..] == [];
  }

  /** Outside of queries a handler queues exactly what it sends, in order. */
  lemma {:induction false} QueuesWhatIsSent(actions: Actions)
    ensures Messages(SentCalls(actions)) == Sent(List(actions))
    decreases actions
  {
    hide Messages;
    if actions.Stop? {
      NoMessages();
    } else {
      QueuesWhatIsSent(actions.rest);
      assert List(actions)[1..] == List(actions.rest);
      if actions.first.Send? {
        FirstMessage(SentCalls(actions));
        assert SentCalls(actions)[1..] == SentCalls(actions.rest);
      } else {
        EmptyFirst(Sent(List(actions.rest)));
        EmptyFirst(SentCalls(actions.rest));
      }
    }
  }

  /** The modules before `upto` that have a handler were given this message once more. */
  predicate GivenTo(handlers: seq<bool>, before: seq<seq<Message>>, now: seq<seq<Message>>, msg: Message, upto: nat) {
    |before| == |now| == |handlers| && forall k :: 0 <= k < |handlers| ==>
      now[k] == before[k] + (if k < upto && handlers[k] then [msg] else [])
  }

  function Handed(handlers: seq<bool>, received: seq<seq<Message>>, msg: Message, m: nat): (r: seq<seq<Message>>)
    requires |received| == |handlers| && m < |handlers|
    ensures |r| == |handlers|
  {
    if handlers[m] then received[m := received[m] + [msg]] else received
  }

  lemma HandedOn(handlers: seq<bool>, before: seq<seq<Message>>, now: seq<seq<Message>>, msg: Message, m: nat)
    requires m < |handlers| && GivenTo(handlers, before, now, msg, m)
    ensures GivenTo(handlers, before, Handed(handlers, now, msg, m), msg, m + 1)
  {
  }

  /** The query that nothing was sent or asked after, if the last action is one. */
  function LastQuery(actions: seq<Action>, before: Option<Message>): Option<Message> {
    if actions == [] then before
    else if actions[|actions| - 1].Query? then Some(actions[|actions| - 1].call.msg)
    else None
  }

  /** What a query returns when its handlers did `actions`. */
  function Answer(actions: seq<Action>): seq<Message> {
    Sent(actions) + ToSeq(LastQuery(actions, None))
  }

  lemma {:induction false} SentConcat(a: seq<Action>, b: seq<Action>)
    ensures Sent(a + b) == Sent(a) + Sent(b)
    decreases |a|
  {
    if a == [] {
      assert a + b == b;
    } else {
      assert (a + b)[0] == a[0] && (a + b)[1..] == a[1..] + b;
      SentConcat(a[1..], b);
      var head := if a[0].Send? then [a[0].call.msg] else [];
      assert head + (Sent(a[1..]) + Sent(b)) == (head + Sent(a[1..])) + Sent(b);
    }
  }

  lemma LastQueryConcat(a: seq<Action>, b: seq<Action>, before: Option<Message>)
    ensures LastQuery(a + b, before) == LastQuery(b, LastQuery(a, before))
  {
    if b == [] {
      assert a + b == a;
    } else {
      assert (a + b)[|a + b| - 1] == b[|b| - 1];
    }
  }

  /** Every action noted as an answer, in order: what the comments of the source promise. */
  function Noted(actions: seq<Action>): seq<Message>
    decreases |actions|
  {
    if actions == [] then [] else [actions[0].call.msg] + Noted(actions[1..])
  }

  predicate OnlySends(actions: seq<Action>) {
    forall i :: 0 <= i < |actions| ==> actions[i].Send?
  }

  lemma {:induction false} SentOfSends(actions: seq<Action>)
    ensures |Sent(actions)| <= |Noted(actions)| == |actions|
    ensures if OnlySends(actions) then Sent(actions) == Noted(actions) else |Sent(actions)| < |actions|
    decreases |actions|
  {
    if actions != [] {
      SentOfSends(actions[1..]);
      assert forall i :: 1 <= i < |actions| ==> actions[i] == actions[1..][i - 1];
    }
  }

  lemma {:induction false} NotedLast(before: seq<Action>, last: Action)
    ensures Noted(before + [last]) == Noted(before) + [last.call.msg]
    decreases |before|
  {
    if before == [] {
      assert before + [last] == [last];
    } else {
      NotedLast(before[1..], last);
      assert (before + [last])[1..] == before[1..] + [last];
    }
  }

  lemma AnswerLast(before: seq<Action>, last: Action)
    ensures Answer(before + [last]) == Sent(before) + [last.call.msg]
  {
    hide Sent;
    SentConcat(before, [last]);
    SentOne(last);
    assert (before + [last])[|before|] == last;
  }

  lemma SentOne(action: Action)
    ensures Sent([action]) == if action.Send? then [action.call.msg] else []
  {
  }

  /**
    A query notes everything its handlers did exactly when none of them asked a query and went
    on afterwards: the answer of a nested query is dropped with the next message sent.
   */
  lemma {:induction false} AnswersNotedIff(actions: seq<Action>)
    ensures Answer(actions) == Noted(actions) <==> actions == [] || OnlySends(actions[..|actions| - 1])
  {
    hide Sent, OnlySends, Answer, Noted;
    if actions == [] {
      NothingAnswered();
    } else {
      AnswersNotedBut(actions[..|actions| - 1], actions[|actions| - 1]);
      assert actions[..|actions| - 1] + [actions[|actions| - 1]] == actions;
    }
  }

  /** The failing run: a handler asks and then sends, and the answer holds only what it sent. */
  lemma NestedAnswerLost(a: Call, b: Call)
    ensures
      var actions := [Query(a), Send(b)];
      Noted(actions) == [a.msg, b.msg] && Answer(actions) == [b.msg]
  {
    hide Sent, Answer, Noted;
    assert [Query(a), Send(b)] == [Query(a)] + [Send(b)] && [Query(a)] == [] + [Query(a)];
    AnswerLast([Query(a)], Send(b));
    SentOne(Query(a));
    NothingAnswered();
    NotedLast([], Query(a));
    NotedLast([Query(a)], Send(b));
  }

  lemma NothingAnswered()
    ensures Answer([]) == Noted([]) == []
  {
  }

  lemma AnswersNotedBut(before: seq<Action>, last: Action)
    ensures Answer(before + [last]) == Noted(before + [last]) <==> OnlySends(before)
  {
    hide Sent, OnlySends, Answer, Noted;
    AnswerLast(before, last);
    SentOfSends(before);
    NotedLast(before, last);
    if Sent(before) != Noted(before) {
      assert |Sent(before)| < |Noted(before)|;
    }
  }

  function AllOf(lists: seq<seq<Action>>): seq<Action> {
    if lists == [] then [] else lists[0] + AllOf(lists[1..])
  }

  /** What each module does about a message: its reactions if it has a handler, and else nothing. */
  function PerModule(handlers: seq<bool>, call: Call): (r: seq<seq<Action>>)
    ensures |r| == |handlers|
  {
    seq(|handlers|, m requires 0 <= m < |handlers| =>
      if handlers[m] && m < |call.reactions| then List(call.reactions[m]) else [])
  }

  lemma {:induction false} DirectFrom(handlers: seq<bool>, call: Call, m: nat)
    requires m <= |handlers|
    ensures Direct(handlers, call, m) == AllOf(PerModule(handlers, call)[m..])
    decreases |handlers| - m
  {
    hide List;
    if m < |handlers| {
      var lists := PerModule(handlers, call)[m..];
      assert lists[1..] == PerModule(handlers, call)[m + 1..];
      assert List(Stop) == [] by { StopDoesNothing(); }
      DirectFrom(handlers, call, m + 1);
    }
  }

  lemma StopDoesNothing()
    ensures List(Stop) == []
  {
  }

  /** A message reaches the handler of every module, in the order of the modules. */
  lemma {:induction false} EveryHandlerActs(handlers: seq<bool>, call: Call)
    ensures Direct(handlers, call, 0) == AllOf(PerModule(handlers, call))
  {
    hide Direct, AllOf;
    DirectFrom(handlers, call, 0);
    assert PerModule(handlers, call)[0..] == PerModule(handlers, call);
  }

  lemma {:induction false} SpawnedBefore(handlers: seq<bool>, call: Call, m: nat)
    requires m <= |handlers|
    ensures Messages(Spawned(handlers, call, m)) + Sent(Direct(handlers, call, m)) == Sent(Direct(handlers, call, 0))
    decreases m
  {
    hide Messages, Sent, SentCalls, List;
    if m == 0 {
      NoMessages();
      EmptyFirst(Sent(Direct(handlers, call, 0)));
    } else {
      var reaction := Reaction(handlers, call, m - 1);
      SpawnedBefore(handlers, call, m - 1);
      MessagesConcat(Spawned(handlers, call, m - 1), SentCalls(reaction));
      QueuesWhatIsSent(reaction);
      SentConcat(List(reaction), Direct(handlers, call, m));
      Reassociate(Messages(Spawned(handlers, call, m - 1)), Sent(List(reaction)), Sent(Direct(handlers, call, m)));
    }
  }

  /** What a message of the queue provokes is what its handlers send, in order. */
  lemma {:induction false} ProvokesWhatIsSent(handlers: seq<bool>, call: Call)
    ensures Messages(Children(handlers, call)) == if Reload(call.msg) then [] else Sent(Direct(handlers, call, 0))
  {
    hide Messages, Direct, Reload, Spawned;
    NoMessages();
    SpawnedBefore(handlers, call, |handlers|);
    assert Direct(handlers, call, |handlers|) == [] by { NothingDone(handlers, call); }
    assert Sent([]) == [] by { NothingAnswered(); SentOfSends([]); }
    var all := Messages(Spawned(handlers, call, |handlers|));
    assert all + [] == all;
  }

  class Node {
    var msg: Message
    var next: Node?
    var reactions: seq<Actions>    // what the handlers will do when the message reaches them

    constructor (call: Call)
      ensures msg == call.msg && reactions == call.reactions && next == null
    {
      msg, reactions, next := call.msg, call.reactions, null;
    }
  }

  /** The nodes are distinct and each points to the next one. */
  ghost predicate Linked(nodes: seq<Node>)
    reads nodes
  {
    && (forall i :: 0 <= i < |nodes| - 1 ==> nodes[i].next == nodes[i + 1])
    && (forall i, j :: 0 <= i < j < |nodes| ==> nodes[i] != nodes[j])
  }

  ghost predicate Carry(nodes: seq<Node>, messages: seq<Message>)
    reads nodes
  {
    |nodes| == |messages| && forall i :: 0 <= i < |nodes| ==> nodes[i].msg == messages[i]
  }

  /** What hangs after the last node of the active answer queue. */
  ghost predicate Hangs(last: Node, m: Option<Message>)
    reads last, last.next
  {
    if m.None? then last.next == null
    else last.next != null && last.next != last && last.next.msg == m.value && last.next.next == null
  }

  /** `head` is the last node of an answer queue that carries `messages`. */
  ghost predicate Open(head: Node, spine: seq<Node>, messages: seq<Message>, hung: Option<Message>)
    reads spine, head, head.next
  {
    && spine != [] && spine[|spine| - 1] == head && Linked(spine) && Carry(spine, messages)
    && Hangs(head, hung) && (head.next != null ==> head.next !in spine)
  }

  /** The nodes behind the first, fake one, with what hangs after the last. */
  ghost function Answers(head: Node, spine: seq<Node>): seq<Node>
    requires spine != []
    reads head
  {
    spine[1..] + (if head.next != null then [head.next] else [])
  }

  lemma OpenAnswers(head: Node, spine: seq<Node>, messages: seq<Message>, hung: Option<Message>)
    requires Open(head, spine, messages, hung)
    ensures
      var nodes := Answers(head, spine);
      && messages != [] && Linked(nodes) && Carry(nodes, messages[1..] + ToSeq(hung))
      && spine[0].next == (if nodes == [] then null else nodes[0])
      && (nodes != [] ==> nodes[|nodes| - 1].next == null)
  {
  }

  class Bus {
    const handlers: seq<bool>      // mod_list: does the module have a `message` function?
    var modMsgs: Node?
    var answerHead: Node?
    var hangups: nat                      // how often SIGHUP was raised
    ghost var queue: seq<Node>            // the nodes from modMsgs on
    ghost var calls: seq<Call>            // the queued messages with the reactions they will meet
    ghost var enqueued: seq<Message>
    ghost var dequeued: seq<Message>
    ghost var received: seq<seq<Message>> // per module, the messages given to its handler

    /** At first nothing is queued and no query is active. */
    constructor (handlers: seq<bool>)
      ensures this.handlers == handlers && answerHead == null && Queued() && Accounted()
      ensures calls == [] && enqueued == [] && dequeued == []
    {
      this.handlers := handlers;
      modMsgs, answerHead, hangups := null, null, 0;
      queue, calls, enqueued, dequeued := [], [], [], [];
      received := seq(|handlers|, i => []);
    }

    /** A new last node for the active answer queue. */
    method Append(call: Call, ghost spine: seq<Node>, ghost messages: seq<Message>, ghost hung: Option<Message>)
      requires answerHead != null && Open(answerHead, spine, messages, hung)
      modifies this`answerHead, answerHead
      ensures answerHead != null && fresh(answerHead) && answerHead.next == null
      ensures Open(answerHead, spine + [answerHead], messages + [call.msg], None)
    {
      var newmsg := new Node(call);
      answerHead.next := newmsg;
      answerHead := newmsg;
    }

    /** `mod_sendmsg` inside a query: the message is handled at once and noted as an answer. */
    method SendInQuery(call: Call, ghost spine: seq<Node>, ghost messages: seq<Message>, ghost hung: Option<Message>)
      requires answerHead != null && Open(answerHead, spine, messages, hung)
      modifies this`answerHead, answerHead
      ensures answerHead != null && fresh(answerHead) && answerHead.next == null
      ensures Open(answerHead, spine + [answerHead], messages + [call.msg], None)
      decreases Size(call), 3
    {
      hide Open;
      var answer, nodes := ModQuery(call, spine, messages, hung);
      Append(call, spine, messages, Some(call.msg));
    }

    /** A handler at work inside a query. */
    method RunInQuery(actions: Actions, ghost spine: seq<Node>, ghost messages: seq<Message>, ghost hung: Option<Message>)
      returns (ghost added: seq<Node>)
      requires answerHead != null && Open(answerHead, spine, messages, hung)
      modifies this`answerHead, answerHead
      ensures fresh(added) && answerHead != null && (answerHead == old(answerHead) || fresh(answerHead))
      ensures Open(answerHead, spine + added, messages + Sent(List(actions)), LastQuery(List(actions), hung))
      ensures answerHead.next == null || fresh(answerHead.next) || (actions.Stop? && answerHead.next == old(answerHead.next))
      decreases ActionsSize(actions), 0
    {
      hide Open;
      added := [];
      if actions.Stop? {
        assert spine + added == spine && messages + Sent([]) == messages;
        return;
      }
      var call := actions.first.call;
      ActFirst(actions, messages, hung);
      if actions.first.Send? {
        SendInQuery(call, spine, messages, hung);
        ghost var first := [answerHead];
        added := RunInQuery(actions.rest, spine + first, messages + [call.msg], None);
        assert spine + first + added == spine + (first + added);
        added := first + added;
      } else {
        var answer, nodes := ModQuery(call, spine, messages, hung);
        added := RunInQuery(actions.rest, spine, messages, Some(call.msg));
      }
    }

    /**
      `mod_query`: the answers given while the handlers ran, as a list of its own. The queue
      that was active before, `spine` with `messages`, is active again with the same nodes.
     */
    method ModQuery(call: Call, ghost spine: seq<Node>, ghost messages: seq<Message>, ghost hung: Option<Message>)
      returns (answer: Node?, ghost nodes: seq<Node>)
      requires answerHead != null ==> Open(answerHead, spine, messages, hung)
      modifies this`answerHead, answerHead
      ensures answerHead == old(answerHead)
      ensures answerHead != null ==> Open(answerHead, spine, messages, Some(call.msg)) && fresh(answerHead.next)
      ensures Linked(nodes) && fresh(nodes) && Carry(nodes, Answer(Direct(handlers, call, 0)))
      ensures answer == if nodes == [] then null else nodes[0]
      ensures nodes != [] ==> nodes[|nodes| - 1].next == null
      decreases Size(call), 2
    {
      hide Direct, Sent, LastQuery, Open, Linked, Carry;
      var tmpAnswer := answerHead;
      var returnQueue := Park(call, spine, messages, hung);
      ghost var fake, actions := returnQueue.msg, Direct(handlers, call, 0);
      ghost var own := RunKeeping(call, returnQueue, tmpAnswer, spine, messages);
      OpenAnswers(answerHead, own, [fake] + Sent(actions), LastQuery(actions, None));
      assert ([fake] + Sent(actions))[1..] == Sent(actions);
      nodes := Answers(answerHead, own);
      answerHead := tmpAnswer;
      answer := returnQueue.next;
    }

    /** The start of `mod_query`: note the query in the active queue and open a new queue. */
    method Park(call: Call, ghost spine: seq<Node>, ghost messages: seq<Message>, ghost hung: Option<Message>)
      returns (returnQueue: Node)
      requires answerHead != null ==> Open(answerHead, spine, messages, hung)
      modifies this`answerHead, answerHead
      ensures fresh(returnQueue) && answerHead == returnQueue && returnQueue.next == null
      ensures Open(returnQueue, [returnQueue], [returnQueue.msg], None)
      ensures old(answerHead) != null ==>
        && Open(old(answerHead), spine, messages, Some(call.msg))
        && fresh(old(answerHead).next) && old(answerHead).next != returnQueue
    {
      returnQueue := new Node(Call(Message(0, ""), []));
      if answerHead != null {
        var newmsg := new Node(call);
        answerHead.next := newmsg;
        answerHead := newmsg;
      }
      returnQueue.next := null;
      answerHead := returnQueue;
    }

    /** The handlers of a query leave the queue that was active before alone. */
    method RunKeeping(call: Call, returnQueue: Node, outer: Node?, ghost spine: seq<Node>, ghost messages: seq<Message>)
      returns (ghost own: seq<Node>)
      requires answerHead == returnQueue && Open(returnQueue, [returnQueue], [returnQueue.msg], None)
      requires returnQueue.next == null
      requires outer != null ==> Open(outer, spine, messages, Some(call.msg)) && returnQueue !in spine && outer.next != returnQueue
      requires outer != null ==> outer != returnQueue
      modifies this`answerHead, returnQueue
      ensures own != [] && own[0] == returnQueue && fresh(own[1..]) && answerHead != null
      ensures answerHead.next == null || fresh(answerHead.next)
      ensures
        var actions := Direct(handlers, call, 0);
        Open(answerHead, own, [old(returnQueue.msg)] + Sent(actions), LastQuery(actions, None))
      ensures outer != null ==> Open(outer, spine, messages, Some(call.msg)) && outer.next == old(outer.next)
      decreases Size(call), 1
    {
      hide Direct, Sent, LastQuery;
      own := RunModules(call, returnQueue);
      if outer != null {
        assert forall n :: n in spine ==> n.next == old(n.next) && n.msg == old(n.msg);
        assert Linked(spine) && Carry(spine, messages);
        assert Hangs(outer, Some(call.msg));
      }
    }

    /** The loop of `mod_query` over the modules, with a fresh answer queue. */
    method RunModules(call: Call, returnQueue: Node) returns (ghost own: seq<Node>)
      requires answerHead == returnQueue && Open(returnQueue, [returnQueue], [returnQueue.msg], None)
      requires returnQueue.next == null
      modifies this`answerHead, returnQueue
      ensures own != [] && own[0] == returnQueue && fresh(own[1..]) && answerHead != null
      ensures answerHead.next == null || fresh(answerHead.next)
      ensures
        var actions := Direct(handlers, call, 0);
        Open(answerHead, own, [old(returnQueue.msg)] + Sent(actions), LastQuery(actions, None))
      decreases Size(call), 0
    {
      hide Open, Direct, LastQuery, Sent;
      ghost var fake, done := [returnQueue.msg], [];
      own := [returnQueue];
      NothingDone(handlers, call);
      assert fake + Sent(done) == fake;
      var m := 0;
      while m < |handlers|
        invariant m <= |handlers| && own != [] && own[0] == returnQueue && fresh(own[1..])
        invariant answerHead != null && (answerHead == returnQueue || fresh(answerHead))
        invariant answerHead.next == null || fresh(answerHead.next)
        invariant Open(answerHead, own, fake + Sent(done), LastQuery(done, None))
        invariant done + Direct(handlers, call, m) == Direct(handlers, call, 0)
      {
        DirectStep(handlers, call, m, done);
        if handlers[m] {
          if m < |call.reactions| {
            ReactionFits(call.reactions, m);
          }
          var actions := if m < |call.reactions| then call.reactions[m] else Stop;
          var added := RunInQuery(actions, own, fake + Sent(done), LastQuery(done, None));
          SentConcat(done, List(actions));
          LastQueryConcat(done, List(actions), None);
          assert fake + Sent(done) + Sent(List(actions)) == fake + (Sent(done) + Sent(List(actions)));
          own := own + added;
          done := done + List(actions);
        }
        m := m + 1;
      }
      assert done == Direct(handlers, call, 0);
    }

    // ---- the queue -----------------------------------------------------------------------

    /** The queue of `mod_msgs` carries these messages. */
    ghost predicate Queued()
      reads `modMsgs, `queue, `calls, queue
    {
      && Linked(queue) && |queue| == |calls|
      && (forall i :: 0 <= i < |queue| ==> Call(queue[i].msg, queue[i].reactions) == calls[i])
      && modMsgs == (if queue == [] then null else queue[0])
      && (queue != [] ==> queue[|queue| - 1].next == null)
    }

    /** The queue has only grown at its end, by new nodes. */
    twostate predicate Grown(before: seq<Node>)
      reads `queue
    {
      before <= queue && forall i :: |before| <= i < |queue| ==> fresh(queue[i])
    }

    /** Every message is delivered in the order in which it was queued, or is still queued; each `reload` raised the signal. */
    ghost predicate Accounted()
      reads `enqueued, `dequeued, `calls, `received, `hangups
    {
      && enqueued == dequeued + Messages(calls)
      && |received| == |handlers| && hangups + |Seen(dequeued)| == |dequeued|
      && forall m :: 0 <= m < |handlers| ==> received[m] == if handlers[m] then Seen(dequeued) else []
    }

    /** The walk of `mod_sendmsg` to the end of the queue. */
    method LastQueued() returns (m: Node?)
      requires Queued()
      ensures m == if queue == [] then null else queue[|queue| - 1]
    {
      m := modMsgs;
      ghost var i := 0;
      while m != null && m.next != null
        invariant queue != [] ==> i < |queue| && m == queue[i]
        invariant queue == [] ==> m == null
        decreases |queue| - i
      {
        NextOf(i);
        m := m.next;
        i := i + 1;
      }
      if m != null {
        NextOf(i);
      }
    }

    lemma NextOf(i: nat)
      requires Queued() && i < |queue|
      ensures queue[i].next == if i + 1 < |queue| then queue[i + 1] else null
    {
    }

    /** `mod_sendmsg` outside a query: append to the queue. */
    method Enqueue(call: Call)
      requires Queued()
      modifies this`modMsgs, this`queue, this`calls, this`enqueued, queue
      ensures Queued() && calls == old(calls) + [call] && enqueued == old(enqueued) + [call.msg]
      ensures Grown(old(queue)) && (old(queue) != [] ==> modMsgs == old(modMsgs))
    {
      hide Linked;
      var newmsg := new Node(call);
      Attach(newmsg);
      calls := calls + [call];
      enqueued := enqueued + [call.msg];
    }

    method Attach(newmsg: Node)
      requires Queued() && newmsg !in queue && newmsg.next == null
      modifies this`modMsgs, this`queue, queue
      ensures queue == old(queue) + [newmsg] && Linked(queue) && modMsgs == queue[0] && newmsg.next == null
      ensures forall n :: n in queue ==> n.msg == old(n.msg) && n.reactions == old(n.reactions)
    {
      var m := LastQueued();
      if m != null {
        m.next := newmsg;
      } else {
        modMsgs := newmsg;
      }
      queue := queue + [newmsg];
    }

    /** `mod_sendmsg` */
    method ModSendMsg(call: Call, ghost spine: seq<Node>, ghost messages: seq<Message>, ghost hung: Option<Message>)
      requires if answerHead == null then Queued() else Open(answerHead, spine, messages, hung)
      modifies this`answerHead, answerHead, this`modMsgs, this`queue, this`calls, this`enqueued
      modifies if answerHead == null then queue else []
      ensures old(answerHead) == null ==>
        && answerHead == null && Queued() && calls == old(calls) + [call] && enqueued == old(enqueued) + [call.msg]
        && Grown(old(queue)) && (old(queue) != [] ==> modMsgs == old(modMsgs))
        && (old(Accounted()) ==> Accounted())
      ensures old(answerHead) != null ==>
        && modMsgs == old(modMsgs) && queue == old(queue) && calls == old(calls) && enqueued == old(enqueued)
        && answerHead != null && Open(answerHead, spine + [answerHead], messages + [call.msg], None)
    {
      if answerHead != null {
        SendInQuery(call, spine, messages, hung);
        return;
      }
      hide Seen, Messages;
      MessagesConcat(calls, [call]);
      OneMessage(call);
      Reassociate(dequeued, Messages(calls), [call.msg]);
      Enqueue(call);
    }

    /** A handler at work on a message of the queue; what it sends is queued, what it asks is answered. */
    method RunOutside(actions: Actions)
      requires answerHead == null && Queued() && queue != []
      modifies this`answerHead, this`modMsgs, this`queue, this`calls, this`enqueued, queue
      ensures answerHead == null && Queued() && calls == old(calls) + SentCalls(actions)
      ensures enqueued == old(enqueued) + Messages(SentCalls(actions))
      ensures Grown(old(queue)) && modMsgs == old(modMsgs)
      decreases actions
    {
      hide Queued, Messages;
      if actions.Stop? {
        assert calls == calls + [] && enqueued == enqueued + Messages([]) by { NoMessages(); }
        return;
      }
      var call := actions.first.call;
      if actions.first.Send? {
        ModSendMsg(call, [], [], None);
        RunOutside(actions.rest);
        SendsFirst(call, SentCalls(actions.rest), old(calls), old(enqueued));
      } else {
        var answer, nodes := ModQuery(call, [], [], None);
        RunOutside(actions.rest);
        assert SentCalls(actions) == SentCalls(actions.rest);
      }
    }

    lemma FirstQueued()
      requires Queued() && queue != []
      ensures calls != [] && Call(queue[0].msg, queue[0].reactions) == calls[0]
    {
    }

    /** The first message of the queue is being dispersed. */
    ghost predicate Dispersing(msg: Node)
      reads `answerHead, `modMsgs, `queue, `calls, `received, queue
    {
      && answerHead == null && Queued() && queue != [] && msg == queue[0]
      && calls != [] && Call(msg.msg, msg.reactions) == calls[0] && |received| == |handlers|
    }

    /** One module gets its copy of the message; what its handler sends is queued. */
    method Give(msg: Node, m: nat)
      requires Dispersing(msg) && m < |handlers|
      modifies this`answerHead, this`modMsgs, this`queue, this`calls, this`enqueued, this`received, queue
      ensures Dispersing(msg) && Grown(old(queue)) && modMsgs == old(modMsgs)
      ensures calls == old(calls) + SentCalls(Reaction(handlers, old(calls)[0], m))
      ensures enqueued == old(enqueued) + Messages(SentCalls(Reaction(handlers, old(calls)[0], m)))
      ensures received == Handed(handlers, old(received), old(calls)[0].msg, m)
    {
      assert calls + SentCalls(Stop) == calls && enqueued + Messages(SentCalls(Stop)) == enqueued;
      if handlers[m] {
        hide Queued;
        received := received[m := received[m] + [msg.msg]];
        RunOutside(if m < |msg.reactions| then msg.reactions[m] else Stop);
        FirstQueued();
      }
    }

    /** The loop of `mod_update` that disperses the first message of the queue over the modules. */
    method Disperse(msg: Node)
      requires Dispersing(msg)
      modifies this`answerHead, this`modMsgs, this`queue, this`calls, this`enqueued, this`received, queue
      ensures Dispersing(msg) && Grown(old(queue)) && modMsgs == old(modMsgs)
      ensures calls == old(calls) + Spawned(handlers, old(calls)[0], |handlers|)
      ensures enqueued == old(enqueued) + Messages(Spawned(handlers, old(calls)[0], |handlers|))
      ensures GivenTo(handlers, old(received), received, old(calls)[0].msg, |handlers|)
    {
      ghost var call := calls[0];
      NothingGiven(msg, call);
      hide Messages, Queued, Dispersing, GivenTo, Spawned, GivenUpTo;
      var m := 0;
      while m < |handlers|
        invariant m <= |handlers| && Grown(old(queue)) && modMsgs == old(modMsgs)
        invariant GivenUpTo(msg, call, m, old(calls), old(enqueued), old(received))
      {
        GiveNext(msg, call, m, old(calls), old(enqueued), old(received));
        m := m + 1;
      }
      AllGiven(msg, call, old(calls), old(enqueued), old(received));
    }

    /** The modules before `m` have had the message, and what they sent for it is queued. */
    ghost predicate GivenUpTo(msg: Node, call: Call, m: nat, calls0: seq<Call>, enqueued0: seq<Message>,
                              received0: seq<seq<Message>>)
      requires m <= |handlers|
      reads `answerHead, `modMsgs, `queue, `calls, `enqueued, `received, queue
    {
      && Dispersing(msg) && calls != [] && calls[0] == call && calls == calls0 + Spawned(handlers, call, m)
      && enqueued == enqueued0 + Messages(Spawned(handlers, call, m))
      && GivenTo(handlers, received0, received, call.msg, m)
    }

    lemma AllGiven(msg: Node, call: Call, calls0: seq<Call>, enqueued0: seq<Message>, received0: seq<seq<Message>>)
      requires GivenUpTo(msg, call, |handlers|, calls0, enqueued0, received0)
      ensures Dispersing(msg) && calls == calls0 + Spawned(handlers, call, |handlers|)
      ensures enqueued == enqueued0 + Messages(Spawned(handlers, call, |handlers|))
      ensures GivenTo(handlers, received0, received, call.msg, |handlers|)
    {
      hide Dispersing, Messages, GivenTo, Spawned;
    }

    /** One turn of the loop. */
    method GiveNext(msg: Node, ghost call: Call, m: nat, ghost calls0: seq<Call>, ghost enqueued0: seq<Message>,
                    ghost received0: seq<seq<Message>>)
      requires m < |handlers| && GivenUpTo(msg, call, m, calls0, enqueued0, received0)
      modifies this`answerHead, this`modMsgs, this`queue, this`calls, this`enqueued, this`received, queue
      ensures GivenUpTo(msg, call, m + 1, calls0, enqueued0, received0)
      ensures Grown(old(queue)) && modMsgs == old(modMsgs)
    {
      hide Messages, Queued, Dispersing, GivenTo, Handed, Spawned, Reaction;
      SameLength(msg);
      HandedOn(handlers, received0, received, call.msg, m);
      Give(msg, m);
      SpawnedStep(call, m, calls0, enqueued0);
    }

    lemma NothingGiven(msg: Node, call: Call)
      requires Dispersing(msg) && call == calls[0]
      ensures GivenUpTo(msg, call, 0, calls, enqueued, received)
    {
      hide Queued;
    }

    lemma SameLength(msg: Node)
      requires Dispersing(msg)
      ensures |received| == |handlers|
    {
    }

    lemma SpawnedStep(call: Call, m: nat, calls0: seq<Call>, enqueued0: seq<Message>)
      requires m < |handlers|
      ensures
        var some, more := Spawned(handlers, call, m), SentCalls(Reaction(handlers, call, m));
        && calls0 + some + more == calls0 + Spawned(handlers, call, m + 1)
        && enqueued0 + Messages(some) + Messages(more) == enqueued0 + Messages(Spawned(handlers, call, m + 1))
    {
      var some, more := Spawned(handlers, call, m), SentCalls(Reaction(handlers, call, m));
      MessagesConcat(some, more);
      assert calls0 + some + more == calls0 + (some + more);
    }

    /** One round of `mod_update`: the first message is dispersed and leaves the queue. */
    method DeliverFirst()
      requires answerHead == null && Queued() && queue != [] && Accounted()
      modifies this, queue
      ensures answerHead == null && Queued() && Accounted() && old(calls) != []
      ensures calls == old(calls)[1..] + Children(handlers, old(calls)[0])
      ensures dequeued == old(dequeued) + [old(calls)[0].msg]
      ensures forall i :: 0 <= i < |queue| ==> queue[i] in old(queue) || fresh(queue[i])
    {
      hide Queued, Messages, Seen, Spawned;
      FirstQueued();
      ghost var call, before := calls[0], calls;
      SeenLast(dequeued, call.msg);
      var msg := modMsgs;
      assert msg == queue[0] by { HeadQueued(); }
      if msg.msg.msgtype == MSGTYPE_INPUT && SameText(msg.msg.text, "reload") {
        hangups := hangups + 1;
        assert calls == calls + Children(handlers, call);
      } else {
        Disperse(msg);
      }
      AccountFirst(before, Children(handlers, call), dequeued);
      Unlink();
    }

    /**
      `mod_update` up to the empty queue: every message leaves in the order in which it was
      queued, also those sent by handlers meanwhile, and every module with a handler was given
      each of them once, in that order.
     */
    method ModUpdate()
      requires answerHead == null && Queued() && Accounted()
      modifies this, queue
      ensures answerHead == null && Queued() && Accounted() && modMsgs == null && calls == []
      ensures dequeued == old(dequeued) + Delivery(handlers, old(calls))
    {
      hide Queued, Accounted, Children, Delivery;
      ghost var total := dequeued + Delivery(handlers, calls);
      QueueEmpty();
      while modMsgs != null
        invariant answerHead == null && Queued() && Accounted()
        invariant modMsgs != null <==> queue != []
        invariant dequeued + Delivery(handlers, calls) == total
        invariant forall i :: 0 <= i < |queue| ==> queue[i] in old(queue) || fresh(queue[i])
        decreases TotalSize(calls)
      {
        FirstQueued();
        DeliveryStep(handlers, calls, dequeued);
        DeliverFirst();
        QueueEmpty();
      }
      QueueEmpty();
      assert Delivery(handlers, []) == [] by { NothingDelivered(handlers); }
    }

    lemma QueueEmpty()
      requires Queued()
      ensures modMsgs == null <==> queue == []
      ensures queue == [] <==> calls == []
    {
    }

    lemma HeadQueued()
      requires Queued() && queue != []
      ensures modMsgs == queue[0]
    {
    }

    /** `mod_msgs = mod_msgs->next` */
    method Unlink()
      requires Queued() && queue != []
      modifies this`modMsgs, this`queue, this`calls, this`dequeued
      ensures Queued() && old(calls) != [] && calls == old(calls)[1..] && queue == old(queue)[1..]
      ensures dequeued == old(dequeued) + [old(calls)[0].msg]
    {
      NextOf(0);
      modMsgs := modMsgs.next;
      dequeued := dequeued + [calls[0].msg];
      queue := queue[1..];
      calls := calls[1..];
    }
  }

  lemma NothingDelivered(handlers: seq<bool>)
    ensures Delivery(handlers, []) == []
  {
  }

  lemma DeliveryUnfolds(handlers: seq<bool>, queue: seq<Call>)
    requires queue != []
    ensures
      var later := queue[1..] + Children(handlers, queue[0]);
      && TotalSize(later) < TotalSize(queue)
      && Delivery(handlers, queue) == [queue[0].msg] + Delivery(handlers, later)
  {
    hide Children;
    ChildrenSmaller(handlers, queue[0]);
    TotalSizeConcat(queue[1..], Children(handlers, queue[0]));
  }

  lemma DeliveryStep(handlers: seq<bool>, queue: seq<Call>, dequeued: seq<Message>)
    requires queue != []
    ensures
      var later := queue[1..] + Children(handlers, queue[0]);
      && TotalSize(later) < TotalSize(queue)
      && dequeued + Delivery(handlers, queue) == dequeued + [queue[0].msg] + Delivery(handlers, later)
  {
    hide Children, Delivery, TotalSize;
    var later := queue[1..] + Children(handlers, queue[0]);
    DeliveryUnfolds(handlers, queue);
    assert dequeued + ([queue[0].msg] + Delivery(handlers, later)) == dequeued + [queue[0].msg] + Delivery(handlers, later);
  }

  lemma Regroup<T>(x: seq<T>, a: seq<T>, b: seq<T>, c: seq<T>)
    ensures x + (a + b) + c == x + a + (b + c)
  {
  }

  lemma AccountFirst(before: seq<Call>, kids: seq<Call>, dequeued: seq<Message>)
    requires before != []
    ensures dequeued + Messages(before) + Messages(kids) == dequeued + [before[0].msg] + Messages(before[1..] + kids)
    ensures (before + kids)[1..] == before[1..] + kids
  {
    hide Messages;
    FirstMessage(before);
    MessagesConcat(before[1..], kids);
    Regroup(dequeued, [before[0].msg], Messages(before[1..]), Messages(kids));
  }

  lemma SendsFirst(call: Call, rest: seq<Call>, calls: seq<Call>, enqueued: seq<Message>)
    ensures calls + [call] + rest == calls + ([call] + rest)
    ensures enqueued + [call.msg] + Messages(rest) == enqueued + Messages([call] + rest)
  {
    assert ([call] + rest)[1..] == rest;
  }

  lemma NothingDone(handlers: seq<bool>, call: Call)
    ensures Sent([]) == [] && LastQuery([], None) == None && [] + Direct(handlers, call, 0) == Direct(handlers, call, 0)
    ensures Direct(handlers, call, |handlers|) == []
  {
  }

  lemma DirectStep(handlers: seq<bool>, call: Call, m: nat, done: seq<Action>)
    requires m < |handlers|
    ensures
      var reaction := List(Reaction(handlers, call, m));
      && done + Direct(handlers, call, m) == (done + reaction) + Direct(handlers, call, m + 1)
      && (!handlers[m] ==> done + reaction == done)
  {
  }

  lemma ActFirst(actions: Actions, messages: seq<Message>, hung: Option<Message>)
    requires actions.Act?
    ensures
      var all, rest := List(actions), List(actions.rest);
      if actions.first.Send? then
        && messages + [actions.first.call.msg] + Sent(rest) == messages + Sent(all)
        && LastQuery(all, hung) == LastQuery(rest, None)
      else
        Sent(all) == Sent(rest) && LastQuery(all, hung) == LastQuery(rest, Some(actions.first.call.msg))
  {
    assert List(actions)[1..] == List(actions.rest);
  }
}
