/** SEND and RECEIVE over the shared mailbox: what one executor sends is what another receives. */
module Mailbox {
  import opened Wrappers
  import opened Text
  import opened Values
  import opened Variables
  import opened ValueExpressions
  import opened Execution
  import opened Assignments
  import opened Commands

  /** SEND stores nothing while it evaluates, so every expression reads the store before it. */
  lemma {:induction false} PacketOfValues(lib: Library, params: map<string, string>, keys: seq<string>,
                                          outputs: Bindings, w: World)
    requires forall k | k in keys :: k in params
    requires AllDefined(lib, w.store, params)
    ensures ParamLoop(lib, ToPacket, params, keys, outputs, w) ==
            Returned(Success(NoNote, outputs + Selected(ValuesBefore(lib, w.store, params), keys)), w)
    decreases |keys|
  {
    var values := ValuesBefore(lib, w.store, params);
    if keys == [] {
      assert outputs + Selected(values, []) == outputs;
    } else {
      var k := keys[0];
      assert k in keys && k in values;
      PacketOfValues(lib, params, keys[1..], outputs[k := values[k]], w);
      SelectedStep(outputs, values, keys);
      assert w.(store := w.store) == w;
    }
  }

  /** SEND posts the value of every parameter as one packet, or throws and posts nothing. */
  lemma SendPostsValues(lib: Library, command: string, params: map<string, string>, w: World)
    requires Says(command, "SEND") && AllDefined(lib, w.store, params)
    ensures var packet := ValuesBefore(lib, w.store, params);
      ExecCommand(lib, command, params, w) == Returned(Success(NoNote, packet), w.(mailbox := packet))
  {
    var keys := SortedKeys(params.Keys);
    SendRuns(lib, command, params, w);
    PacketOfValues(lib, params, keys, map[], w);
    AllSelected(ValuesBefore(lib, w.store, params), keys);
  }

  lemma {:induction false} UndefinedThrows(lib: Library, params: map<string, string>, keys: seq<string>,
                                           outputs: Bindings, w: World, k: string)
    requires forall j | j in keys :: j in params
    requires k in keys && EvalValue(lib, w.store, params[k]).Err?
    ensures var step := ParamLoop(lib, ToPacket, params, keys, outputs, w);
      step.Thrown? && step.world == w
    decreases |keys|
  {
    var e := EvalValue(lib, w.store, params[keys[0]]);
    if e.Ok? {
      assert k in keys[1..];
      UndefinedThrows(lib, params, keys[1..], outputs[keys[0] := e.value], w, k);
      assert w.(store := w.store) == w;
    }
  }

  lemma SendThrowsUntouched(lib: Library, command: string, params: map<string, string>, w: World)
    requires Says(command, "SEND") && !AllDefined(lib, w.store, params)
    ensures var step := ExecCommand(lib, command, params, w);
      step.Thrown? && step.world == w
  {
    SendRuns(lib, command, params, w);
    var k :| k in params && EvalValue(lib, w.store, params[k]).Err?;
    UndefinedThrows(lib, params, SortedKeys(params.Keys), map[], w, k);
  }

  /** What RECEIVE asks for. */
  function Asked(query: map<string, string>, keys: seq<string>, packet: Bindings): Bindings {
    map k | k in packet && k in keys && k in query && k != "result_to" :: packet[k]
  }

  lemma AskedStep(query: map<string, string>, keys: seq<string>, packet: Bindings, m: Bindings)
    requires keys != [] && keys[0] in query
    ensures keys[0] == "result_to" ==> m + Asked(query, keys[1..], packet) == m + Asked(query, keys, packet)
    ensures keys[0] != "result_to" && keys[0] in packet ==>
      m[keys[0] := packet[keys[0]]] + Asked(query, keys[1..], packet) == m + Asked(query, keys, packet)
  {
    assert forall k :: k in keys <==> k == keys[0] || k in keys[1..];
  }

  lemma {:induction false} ReceiveTakes(lib: Library, packet: Bindings, query: map<string, string>, keys: seq<string>,
                                        outputs: Bindings, w: World)
    requires forall k | k in keys :: k in query && (k == "result_to" || k in packet)
    ensures var asked := Asked(query, keys, packet);
      ReceiveLoop(lib, packet, query, keys, outputs, w) ==
      Returned(Success(NoNote, outputs + asked), w.(store := w.store.(local := w.store.local + asked)))
    decreases |keys|
  {
    if keys == [] {
      assert outputs + Asked(query, [], packet) == outputs && w.store.local + Asked(query, [], packet) == w.store.local;
      assert w.(store := w.store.(local := w.store.local)) == w;
    } else {
      var k := keys[0];
      assert k in keys;
      AskedStep(query, keys, packet, outputs);
      AskedStep(query, keys, packet, w.store.local);
      if k == "result_to" {
        ReceiveTakes(lib, packet, query, keys[1..], outputs, w);
      } else {
        ReceiveTakes(lib, packet, query, keys[1..], outputs[k := packet[k]],
                     w.(store := Set(w.store, k, packet[k], LOCAL)));
      }
    }
  }

  /** A RECEIVE that asks only for sent keys, by any executor that finds the packet, stores and
      outputs the sender's values, whatever its own expressions say. */
  lemma SentIsReceived(lib: Library, send: string, params: map<string, string>, sender: World,
                       receive: string, query: map<string, string>, receiver: World)
    requires Says(send, "SEND") && Says(receive, "RECEIVE") && AllDefined(lib, sender.store, params)
    requires Found(receiver) == ExecCommand(lib, send, params, sender).world.mailbox
    requires "result_to" !in query && query.Keys <= params.Keys
    ensures var step := ExecCommand(lib, receive, query, receiver);
      && step.Succeeded() && step.result.outputs.Keys == query.Keys
      && (forall k <- query ::
            k in step.world.store.local &&
            step.result.outputs[k] == step.world.store.local[k] == EvalValue(lib, sender.store, params[k]).value)
      && (forall k | k !in query :: Get(step.world.store, k) == Get(receiver.store, k))
      && step.world.mailbox == Found(receiver)
  {
    SendPostsValues(lib, send, params, sender);
    ReceiveAnswers(lib, receive, ValuesBefore(lib, sender.store, params), query, receiver);
  }

  /** A RECEIVE that asks only for what the packet holds. */
  lemma ReceiveAnswers(lib: Library, command: string, packet: Bindings, query: map<string, string>, receiver: World)
    requires Says(command, "RECEIVE") && Found(receiver) == packet && query.Keys <= packet.Keys && "result_to" !in query
    ensures var answer := map k | k in query :: packet[k];
      ExecCommand(lib, command, query, receiver) ==
      Returned(Success(NoNote, answer),
               MailboxRead(receiver).(store := receiver.store.(local := receiver.store.local + answer)))
  {
    ReceiveRuns(lib, command, query, receiver);
    var keys, answer := SortedKeys(query.Keys), map k | k in query :: packet[k];
    ReceiveTakes(lib, packet, query, keys, map[], MailboxRead(receiver));
    assert Asked(query, keys, packet) == answer;
    assert map[] + answer == answer;
  }
}
