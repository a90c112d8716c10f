/**
 * The chat server: a registry from each connection's task to its session,
 * the per-line dispatch of the read loop, the `/nick` and `/private`
 * commands, broadcast, disconnect and shutdown.
 *
 * The first half states each operation as a function on the registry's
 * value (a map from task to SessionView) and proves what it promises; the
 * class Server at the end keeps the sessions as objects, updates them in
 * place as the source does, and is proved to follow those functions.
 */
module ChatServer {
  import opened Text
  import opened Sessions

  /** The text written to every new connection before anything else. */
  const Welcome: string :=
    "Welcome to chat \n" +
    "Please choose you nickname \n" +
    "Write /nick <your nickname> \n" +
    "You can send private msg \n" +
    "Write /private <nickname> <message>\n" +
    "Write quit to leave chat"

  const InvalidCommand: string := "Invalid Command\n"
  const QuitMarker: string := "quit"

  /** The handle of one connection's read loop; only its identity matters. */
  class Task {
    constructor () {}
  }

  /** The registry's value: every live session's state, by task. */
  type Registry = map<Task, SessionView>

  /** What an unregistered task makes `disconnect_client` raise. */
  datatype Outcome = Done | KeyError

  // ---------------------------------------------------------------------
  // Specification of the registry operations

  /** Writes `message` once to each registered session in `recipients`. */
  function Deliveries(reg: Registry, message: string, recipients: set<Task>): (r: Registry)
  {
    map t | t in reg :: if t in recipients then Deliver(reg[t], message) else reg[t]
  }

  /** `broadcast_message(message, excluded)`: every session not excluded gets the message. */
  function Broadcast(reg: Registry, message: string, excluded: set<Task>): (r: Registry)
  {
    Deliveries(reg, message, reg.Keys - excluded)
  }

  /** The sessions whose nickname is `nick`. */
  function Named(reg: Registry, nick: string): (s: set<Task>)
  {
    set t | t in reg && reg[t].nickname == nick
  }

  /** `accept_client`: a new session under a new task, with the welcome text written to it. */
  function Accept(reg: Registry, task: Task, peer: string): (r: Registry)
  {
    reg[task := Deliver(Initial(peer), Welcome)]
  }

  /**
   * `disconnect_client` on a registered task: the others are told that it
   * has left, it is removed, and `quit` is written to it. Gives the new
   * registry and the departed session's final state.
   */
  function Disconnect(reg: Registry, task: Task): (r: (Registry, SessionView))
    requires task in reg
  {
    var left := Broadcast(reg, reg[task].nickname + " has left!", {task});
    (left - {task}, Deliver(left[task], QuitMarker))
  }

  /** `shutdown_server`: `quit` written to every session. */
  function Shutdown(reg: Registry): (r: Registry)
  {
    Deliveries(reg, QuitMarker, reg.Keys)
  }

  /** The two `replace` calls at the top of `handle_client_command`. */
  function Strip(line: string): (r: string)
  {
    Remove(Remove(line, '\n'), '\r')
  }

  /** The text a `/private` line sends: the command word and the target's name replaced. */
  function PrivateBody(message: string, senderNick: string, target: string): (r: string)
  {
    ReplaceAll(ReplaceAll(message, "/private", "private message from " + senderNick + ": "), target, "")
  }

  /** `handle_client_command(sender, line)`. */
  function HandleCommand(reg: Registry, sender: Task, line: string): (r: Registry)
    requires sender in reg
    ensures r.Keys == reg.Keys
  {
    var message := Strip(line);
    if StartsWith(message, "/nick") then
      var parts := Split(message, ' ');
      if |parts| >= 2 then
        var renamed := reg[sender].(nickname := parts[1]);
        reg[sender := Deliver(renamed, "Nickname changed to " + parts[1] + "\n")]
      else
        reg
    else if StartsWith(message, "/private") then
      var parts := Split(message, ' ');
      if |parts| >= 2 then
        Deliveries(reg, PrivateBody(message, reg[sender].nickname, parts[1]), Named(reg, parts[1]))
      else
        reg
    else
      reg[sender := Deliver(reg[sender], InvalidCommand)]
  }

  /** One pass of the read loop: the new registry, and whether the loop ends. */
  function ProcessLine(reg: Registry, sender: Task, line: string): (r: (Registry, bool))
    requires sender in reg
    ensures r.0.Keys == reg.Keys
  {
    if StartsWith(line, "quit") then (reg, true)
    else if StartsWith(line, "/") then (HandleCommand(reg, sender, line), false)
    else (Broadcast(reg, reg[sender].nickname + ": " + line, {}), false)
  }

  /**
   * The read loop over the lines one client sends: the registry after the
   * lines it processed, and whether a `quit` line ended it.
   */
  function RunLines(reg: Registry, sender: Task, lines: seq<string>): (r: (Registry, bool))
    requires sender in reg
    ensures r.0.Keys == reg.Keys
    ensures r.1 <==> exists i :: 0 <= i < |lines| && StartsWith(lines[i], "quit")
  {
    if lines == [] then (reg, false)
    else
      var (next, quit) := ProcessLine(reg, sender, lines[0]);
      if quit then (next, true)
      else
        var r := RunLines(next, sender, lines[1..]);
        assert forall i :: 0 <= i < |lines[1..]| ==> lines[1..][i] == lines[i + 1];
        r
  }

  // ---------------------------------------------------------------------
  // Properties of the specification

  /** A fan-out to nobody changes nothing. */
  lemma DeliveriesToNobody(reg: Registry, message: string)
    ensures Deliveries(reg, message, {}) == reg
  {
  }

  /**
   * A fan-out is the same whatever order the sessions are visited in: adding
   * one more recipient to the set writes the message to that session alone,
   * on top of the fan-out to the others.
   */
  lemma DeliveriesOneMore(reg: Registry, message: string, recipients: set<Task>, t: Task)
    requires t in reg && t !in recipients
    ensures Deliveries(reg, message, recipients + {t}) ==
      Deliveries(reg, message, recipients)[t := Deliver(reg[t], message)]
  {
  }

  /** Two fan-outs of one message to disjoint sets are one fan-out to their union. */
  lemma DeliveriesDisjoint(reg: Registry, message: string, a: set<Task>, b: set<Task>)
    requires a !! b
    ensures Deliveries(Deliveries(reg, message, a), message, b) == Deliveries(reg, message, a + b)
  {
  }

  /** A broadcast reaches every session not excluded, exactly once, and no excluded one. */
  lemma BroadcastReaches(reg: Registry, message: string, excluded: set<Task>, t: Task)
    requires t in reg
    ensures Broadcast(reg, message, excluded).Keys == reg.Keys
    ensures Broadcast(reg, message, excluded)[t] ==
      if t in excluded then reg[t] else Deliver(reg[t], message)
  {
  }

  /**
   * The text a `/private <target> <rest>` line sends, when the line has no
   * other `/` and the target's name occurs nowhere else: the command word
   * becomes the sender's label and the name is cut out, its spaces kept.
   */
  lemma PrivateBodyShape(senderNick: string, target: string, rest: string)
    requires target != []
    requires '/' !in target && '/' !in rest
    requires target[0] !in "private message from " + senderNick + ":  " && target[0] !in rest
    ensures PrivateBody("/private " + target + rest, senderNick, target) ==
      "private message from " + senderNick + ":  " + rest
  {
    var heading := "private message from " + senderNick + ": ";
    var tail := " " + target + rest;
    assert "/private " + target + rest == "/private" + tail;
    assert "/private"[0] == '/' && '/' !in tail;
    ReplaceAllFrontOnly("/private", tail, heading);
    var before := heading + " ";
    assert heading + tail == before + (target + rest);
    assert before == "private message from " + senderNick + ":  ";
    ReplaceAllCutOne(before, target, rest);
  }

  /** One worked line: `/private bob hi` from `alice`. */
  lemma PrivateBodyExample()
    ensures PrivateBody("/private bob hi", "alice", "bob") == "private message from alice:   hi"
  {
    PrivateBodyShape("alice", "bob", " hi");
    assert "/private " + "bob" + " hi" == "/private bob hi";
    assert "private message from " + "alice" + ":  " + " hi" == "private message from alice:   hi";
  }

  /** Accepting adds exactly the new task, whose only output so far is the welcome text. */
  lemma AcceptAddsOne(reg: Registry, task: Task, peer: string)
    requires task !in reg
    ensures Accept(reg, task, peer).Keys == reg.Keys + {task}
    ensures forall t :: t in reg ==> Accept(reg, task, peer)[t] == reg[t]
    ensures Accept(reg, task, peer)[task].outbox == [Welcome]
    ensures Accept(reg, task, peer)[task].nickname == peer
  {
  }

  /**
   * Disconnecting removes only the departing task; every other session is
   * told it has left, the departing one is not, and its last output is `quit`.
   */
  lemma DisconnectRemovesOne(reg: Registry, task: Task)
    requires task in reg
    ensures Disconnect(reg, task).0.Keys == reg.Keys - {task}
    ensures forall t :: t in reg && t != task ==>
      Disconnect(reg, task).0[t] == Deliver(reg[t], reg[task].nickname + " has left!")
    ensures Disconnect(reg, task).1 == Deliver(reg[task], QuitMarker)
  {
  }

  /**
   * A connection accepted and then disconnected leaves the same tasks as
   * before; each earlier session has only been told that the newcomer left,
   * and the newcomer received the welcome text and then `quit`.
   */
  lemma AcceptThenDisconnect(reg: Registry, task: Task, peer: string)
    requires task !in reg
    ensures Disconnect(Accept(reg, task, peer), task).0 ==
      Deliveries(reg, peer + " has left!", reg.Keys)
    ensures Disconnect(Accept(reg, task, peer), task).1.outbox == [Welcome, QuitMarker]
  {
    var after := Disconnect(Accept(reg, task, peer), task).0;
    var expected := Deliveries(reg, peer + " has left!", reg.Keys);
    assert after.Keys == expected.Keys;
    forall t | t in after
      ensures after[t] == expected[t]
    {
    }
  }

  /** Shutting down is broadcasting `quit` with nobody excluded. */
  lemma ShutdownIsBroadcast(reg: Registry)
    ensures Shutdown(reg) == Broadcast(reg, QuitMarker, {})
    ensures forall t :: t in reg ==> Shutdown(reg)[t].outbox == reg[t].outbox + [QuitMarker]
  {
    assert reg.Keys - {} == reg.Keys;
  }

  /** Stripping line breaks twice is stripping them once. */
  lemma StripIdempotent(line: string)
    ensures Strip(Strip(line)) == Strip(line)
    ensures '\n' !in Strip(line) && '\r' !in Strip(line)
  {
    var s := Strip(line);
    assert '\n' !in s;
    RemoveAbsent(s, '\n');
    RemoveAbsent(s, '\r');
  }

  /** Line breaks play no part in a command: the handler gives the same result on the stripped line. */
  lemma HandleCommandIgnoresLineBreaks(reg: Registry, sender: Task, line: string)
    requires sender in reg
    ensures HandleCommand(reg, sender, line) == HandleCommand(reg, sender, Strip(line))
  {
    StripIdempotent(line);
  }

  /**
   * `/nick` with a name renames the sender, confirms to the sender only,
   * and leaves every other session as it was.
   */
  lemma NickRenames(reg: Registry, sender: Task, line: string)
    requires sender in reg
    requires StartsWith(Strip(line), "/nick")
    requires |Split(Strip(line), ' ')| >= 2
    ensures var name := Split(Strip(line), ' ')[1];
      var r := HandleCommand(reg, sender, line);
      r.Keys == reg.Keys &&
      r[sender] == Deliver(reg[sender].(nickname := name), "Nickname changed to " + name + "\n") &&
      r[sender].outbox == reg[sender].outbox + ["Nickname changed to " + name + "\n"] &&
      (forall t :: t in reg && t != sender ==> r[t] == reg[t])
  {
  }

  /** `/private` and `/nick` are told apart by their second character. */
  lemma PrivateIsNotNick(s: string)
    requires StartsWith(s, "/private")
    ensures !StartsWith(s, "/nick")
  {
    assert s[1] == "/private"[1] == 'p';
  }

  /**
   * After a session renames itself with `/nick X`, a `/private X ...` line
   * from any session, the renamed one included, reaches it with the private body.
   */
  lemma NickThenPrivate(reg: Registry, renamed: Task, nickLine: string, sender: Task, privateLine: string)
    requires renamed in reg && sender in reg
    requires StartsWith(Strip(nickLine), "/nick") && |Split(Strip(nickLine), ' ')| >= 2
    requires StartsWith(Strip(privateLine), "/private") && |Split(Strip(privateLine), ' ')| >= 2
    requires Split(Strip(privateLine), ' ')[1] == Split(Strip(nickLine), ' ')[1]
    ensures var after := HandleCommand(reg, renamed, nickLine);
      var body := PrivateBody(Strip(privateLine), after[sender].nickname, Split(Strip(privateLine), ' ')[1]);
      HandleCommand(after, sender, privateLine)[renamed].outbox == after[renamed].outbox + [body]
  {
    PrivateIsNotNick(Strip(privateLine));
  }

  /** `/nick` without a name changes nothing and writes nothing, not even `Invalid Command`. */
  lemma NickWithoutNameIsSilent(reg: Registry, sender: Task, line: string)
    requires sender in reg
    requires StartsWith(Strip(line), "/nick")
    requires |Split(Strip(line), ' ')| < 2
    ensures HandleCommand(reg, sender, line) == reg
  {
  }

  /**
   * `/private T ...` writes one message to exactly the sessions named `T`,
   * the sender too if it is named `T`, and nothing to any other session.
   */
  lemma PrivateRoutes(reg: Registry, sender: Task, line: string, t: Task)
    requires sender in reg && t in reg
    requires StartsWith(Strip(line), "/private")
    requires |Split(Strip(line), ' ')| >= 2
    ensures var target := Split(Strip(line), ' ')[1];
      var body := PrivateBody(Strip(line), reg[sender].nickname, target);
      var r := HandleCommand(reg, sender, line);
      r.Keys == reg.Keys &&
      r[t] == (if reg[t].nickname == target then Deliver(reg[t], body) else reg[t])
  {
    PrivateIsNotNick(Strip(line));
  }

  /** A `/private` line naming nobody writes nothing at all: there is no "no such user" reply. */
  lemma PrivateToNobodyIsSilent(reg: Registry, sender: Task, line: string)
    requires sender in reg
    requires StartsWith(Strip(line), "/private")
    requires |Split(Strip(line), ' ')| >= 2 ==>
      forall t :: t in reg ==> reg[t].nickname != Split(Strip(line), ' ')[1]
    ensures HandleCommand(reg, sender, line) == reg
  {
    PrivateIsNotNick(Strip(line));
    var parts := Split(Strip(line), ' ');
    if |parts| >= 2 {
      var r := HandleCommand(reg, sender, line);
      assert Named(reg, parts[1]) == {};
      forall t | t in reg
        ensures r[t] == reg[t]
      {
      }
    }
  }

  /**
   * When the target's name is empty (a doubled space after `/private`),
   * the second replacement removes nothing: the body is the line with only
   * the command word replaced.
   */
  lemma PrivateBodyEmptyTarget(message: string, senderNick: string)
    ensures PrivateBody(message, senderNick, "") ==
      ReplaceAll(message, "/private", "private message from " + senderNick + ": ")
  {
    ReplaceAllSelf(ReplaceAll(message, "/private", "private message from " + senderNick + ": "), "");
  }

  /** Any other command answers `Invalid Command` to the sender and changes nothing else. */
  lemma UnknownCommandRejected(reg: Registry, sender: Task, line: string)
    requires sender in reg
    requires !StartsWith(Strip(line), "/nick") && !StartsWith(Strip(line), "/private")
    ensures var r := HandleCommand(reg, sender, line);
      r.Keys == reg.Keys &&
      r[sender] == Deliver(reg[sender], InvalidCommand) &&
      (forall t :: t in reg && t != sender ==> r[t] == reg[t])
  {
  }

  /**
   * The read loop: a `quit` line ends it with no output; a `/` line goes to
   * the command handler only; any other line reaches every session, the
   * sender included, as `<nickname>: <line>`.
   */
  lemma ProcessLineDispatch(reg: Registry, sender: Task, line: string)
    requires sender in reg
    ensures StartsWith(line, "quit") ==> ProcessLine(reg, sender, line) == (reg, true)
    ensures !StartsWith(line, "quit") && StartsWith(line, "/") ==>
      ProcessLine(reg, sender, line) == (HandleCommand(reg, sender, line), false)
    ensures !StartsWith(line, "quit") && !StartsWith(line, "/") ==>
      !ProcessLine(reg, sender, line).1 &&
      forall t :: t in reg ==>
        ProcessLine(reg, sender, line).0[t] == Deliver(reg[t], reg[sender].nickname + ": " + line)
  {
  }

  /**
   * An empty read, which is what the stream gives at its end, is not a
   * `quit`: it is broadcast as `<nickname>: ` to every session and the loop
   * goes on. Whether the connection is torn down later depends on a write to
   * it failing, which lies outside this model.
   */
  lemma EmptyReadBroadcasts(reg: Registry, sender: Task)
    requires sender in reg
    ensures ProcessLine(reg, sender, "") == (Broadcast(reg, reg[sender].nickname + ": ", {}), false)
  {
    assert reg[sender].nickname + ": " + "" == reg[sender].nickname + ": ";
  }

  /** Running the loop over more lines continues from where the shorter run stopped. */
  lemma {:induction false} RunLinesAppend(reg: Registry, sender: Task, lines: seq<string>, line: string)
    requires sender in reg
    ensures var before := RunLines(reg, sender, lines);
      RunLines(reg, sender, lines + [line]) ==
        if before.1 then before else ProcessLine(before.0, sender, line)
  {
    if lines == [] {
      assert [line][1..] == [];
    } else {
      var (next, quit) := ProcessLine(reg, sender, lines[0]);
      assert (lines + [line])[0] == lines[0];
      if !quit {
        assert (lines + [line])[1..] == lines[1..] + [line];
        RunLinesAppend(next, sender, lines[1..], line);
      }
    }
  }

  /** Once a `quit` line has ended the loop, later lines change nothing. */
  lemma {:induction false} RunLinesStopsAtQuit(reg: Registry, sender: Task, lines: seq<string>, later: seq<string>)
    requires sender in reg
    requires RunLines(reg, sender, lines).1
    ensures RunLines(reg, sender, lines + later) == RunLines(reg, sender, lines)
  {
    var (next, quit) := ProcessLine(reg, sender, lines[0]);
    assert (lines + later)[0] == lines[0];
    if !quit {
      assert (lines + later)[1..] == lines[1..] + later;
      RunLinesStopsAtQuit(next, sender, lines[1..], later);
    }
  }

  /** The read loop's next pass, stated on prefixes of the lines. */
  lemma {:induction false} RunLinesNext(reg: Registry, sender: Task, lines: seq<string>, i: nat)
    requires sender in reg && i < |lines|
    ensures var before := RunLines(reg, sender, lines[..i]);
      RunLines(reg, sender, lines[..i + 1]) ==
        if before.1 then before else ProcessLine(before.0, sender, lines[i])
  {
    RunLinesAppend(reg, sender, lines[..i], lines[i]);
    assert lines[..i + 1] == lines[..i] + [lines[i]];
  }

  /** Where the read loop stops, on a `quit` line or at the last line, it has run over all of them. */
  lemma {:induction false} RunLinesEnd(reg: Registry, sender: Task, lines: seq<string>, i: nat)
    requires sender in reg && i <= |lines|
    requires i == |lines| || RunLines(reg, sender, lines[..i]).1
    ensures RunLines(reg, sender, lines) == RunLines(reg, sender, lines[..i])
  {
    var done, rest := lines[..i], lines[i..];
    assert done + rest == lines;
    if i < |lines| {
      RunLinesStopsAtQuit(reg, sender, done, rest);
    } else {
      assert rest == [];
      assert done == lines;
    }
  }

  /**
   * A whole connection: accepted, its lines read until `quit`, then
   * disconnected. The registry ends with the same tasks it began with.
   */
  lemma SessionLifecycle(reg: Registry, task: Task, peer: string, lines: seq<string>)
    requires task !in reg
    requires RunLines(Accept(reg, task, peer), task, lines).1
    ensures var ran := RunLines(Accept(reg, task, peer), task, lines).0;
      task in ran && Disconnect(ran, task).0.Keys == reg.Keys
  {
  }

  // ---------------------------------------------------------------------
  // The server object

  /** The value of a map from tasks to session objects. */
  function Views(m: map<Task, ClientModel>): (reg: Registry)
    reads m.Values
  {
    map t | t in m :: m[t].View()
  }

  /** The value of the map is any registry that agrees with every object's view. */
  lemma ViewsMatch(m: map<Task, ClientModel>, reg: Registry)
    requires m.Keys == reg.Keys
    requires forall t :: t in m ==> m[t].View() == reg[t]
    ensures Views(m) == reg
  {
  }

  /**
   * Adding a new task and a session object allocated since, while the
   * registered objects stay as they were, adds exactly that object's value.
   */
  twostate lemma ViewsInsert(m: map<Task, ClientModel>, new task: Task, new c: ClientModel)
    requires task !in m && fresh(c)
    requires forall t :: t in m ==> unchanged(m[t])
    ensures Views(m[task := c]) == old(Views(m))[task := c.View()]
  {
  }

  class Server {
    const ip: string
    const port: int
    /** The registry: each connection's task and its session object. */
    var clients: map<Task, ClientModel>

    /** Each session object belongs to exactly one task. */
    ghost predicate Valid()
      reads this
    {
      forall t1, t2 :: t1 in clients && t2 in clients && t1 != t2 ==> clients[t1] != clients[t2]
    }

    /** The registry's value. */
    function Abstract(): (reg: Registry)
      reads this, clients.Values
      ensures reg.Keys == clients.Keys
    {
      Views(clients)
    }

    /** Excluding a registered session's object excludes exactly its task. */
    lemma ExcludeOne(task: Task)
      requires Valid() && task in clients
      ensures ExcludedTasks({clients[task]}) == {task}
    {
    }

    constructor (ip: string, port: int)
      ensures Valid() && this.ip == ip && this.port == port
      ensures clients == map[]
    {
      this.ip := ip;
      this.port := port;
      clients := map[];
    }

    /** `accept_client`: `peer` is the string form of the new connection's peer address. */
    method AcceptClient(peer: string) returns (task: Task)
      requires Valid()
      modifies this
      ensures Valid()
      ensures fresh(task) && task in clients && fresh(clients[task])
      ensures clients == old(clients)[task := clients[task]]
      ensures Abstract() == Accept(old(Abstract()), task, peer)
    {
      ghost var before := clients;
      var client := new ClientModel(peer);
      task := new Task();
      clients := clients[task := client];
      client.SendMessage(Welcome);
      ViewsInsert(before, task, client);
    }

    /** `incoming_client_message_cb`: the read loop over the lines `sender` sends. */
    method IncomingClientMessages(sender: Task, lines: seq<string>) returns (quit: bool)
      requires Valid() && sender in clients
      modifies clients.Values
      ensures (Abstract(), quit) == RunLines(old(Abstract()), sender, lines)
    {
      ghost var reg0 := Abstract();
      var i := 0;
      quit := false;
      while i < |lines| && !quit
        invariant 0 <= i <= |lines|
        invariant (Abstract(), quit) == RunLines(reg0, sender, lines[..i])
      {
        RunLinesNext(reg0, sender, lines, i);
        quit := IncomingClientMessage(sender, lines[i]);
        i := i + 1;
      }
      RunLinesEnd(reg0, sender, lines, i);
    }

    /** One pass of the read loop on the line just read; `quit` when the loop ends. */
    method IncomingClientMessage(sender: Task, line: string) returns (quit: bool)
      requires Valid() && sender in clients
      modifies clients.Values
      ensures (Abstract(), quit) == ProcessLine(old(Abstract()), sender, line)
    {
      if StartsWith(line, "quit") {
        quit := true;
      } else if StartsWith(line, "/") {
        HandleClientCommand(sender, line);
        quit := false;
      } else {
        BroadcastMessage(clients[sender].nickname + ": " + line, {});
        assert ExcludedTasks({}) == {};
        quit := false;
      }
    }

    /** The tasks whose session object is in `exclusion`. */
    function ExcludedTasks(exclusion: set<ClientModel>): (s: set<Task>)
      reads this
    {
      set t | t in clients && clients[t] in exclusion
    }

    /** `handle_client_command` for the session registered under `sender`. */
    method HandleClientCommand(sender: Task, line: string)
      requires Valid() && sender in clients
      modifies clients.Values
      ensures Abstract() == HandleCommand(old(Abstract()), sender, line)
    {
      ghost var reg0 := Abstract();
      var message := Remove(Remove(line, '\n'), '\r');
      var client := clients[sender];
      if StartsWith(message, "/nick") {
        var parts := Split(message, ' ');
        if |parts| >= 2 {
          client.nickname := parts[1];
          client.SendMessage("Nickname changed to " + client.nickname + "\n");
          ViewsMatch(clients, reg0[sender := client.View()]);
          return;
        }
      } else if StartsWith(message, "/private") {
        var parts := Split(message, ' ');
        if |parts| >= 2 {
          var msgFor := parts[1];
          PrivateToNickname(client, message, msgFor);
        }
      } else {
        client.SendMessage(InvalidCommand);
        ViewsMatch(clients, reg0[sender := client.View()]);
      }
    }

    /**
     * The `/private` loop of `handle_client_command`: every session named
     * `msgFor` is sent the private body built from the sender's nickname.
     */
    method PrivateToNickname(client: ClientModel, message: string, msgFor: string)
      requires Valid() && client in clients.Values
      modifies clients.Values
      ensures Abstract() == Deliveries(old(Abstract()), PrivateBody(message, old(client.nickname), msgFor), Named(old(Abstract()), msgFor))
    {
      ghost var reg0 := Abstract();
      ghost var body := PrivateBody(message, client.nickname, msgFor);
      var todo := clients.Keys;
      while todo != {}
        invariant todo <= clients.Keys
        invariant client.nickname == old(client.nickname)
        invariant forall t :: t in clients ==>
          clients[t].View() == if t !in todo && reg0[t].nickname == msgFor then Deliver(reg0[t], body) else reg0[t]
        decreases todo
      {
        var t :| t in todo;
        var target := clients[t];
        if msgFor == target.nickname {
          PrivateMessage(PrivateBody(message, client.nickname, msgFor), target);
        }
        todo := todo - {t};
      }
      ViewsMatch(clients, Deliveries(reg0, body, Named(reg0, msgFor)));
    }

    /** `broadcast_message`: `message` to every session whose object is not in `exclusion`. */
    method BroadcastMessage(message: string, exclusion: set<ClientModel>)
      requires Valid()
      modifies clients.Values
      ensures Abstract() == Broadcast(old(Abstract()), message, ExcludedTasks(exclusion))
    {
      ghost var reg0 := Abstract();
      var todo := clients.Keys;
      while todo != {}
        invariant todo <= clients.Keys
        invariant forall t :: t in clients ==>
          clients[t].View() == if t !in todo && clients[t] !in exclusion then Deliver(reg0[t], message) else reg0[t]
        decreases todo
      {
        var t :| t in todo;
        var client := clients[t];
        if client !in exclusion {
          client.SendMessage(message);
        }
        todo := todo - {t};
      }
      ViewsMatch(clients, Broadcast(reg0, message, ExcludedTasks(exclusion)));
    }

    /** `private_message`: one write to the target's stream. */
    static method PrivateMessage(message: string, target: ClientModel)
      modifies target`outbox
      ensures target.View() == Deliver(old(target.View()), message)
    {
      target.SendMessage(message);
    }

    /**
     * `disconnect_client`: an unregistered task raises `KeyError` before
     * anything happens; a registered one is removed as `Disconnect` says,
     * and its session object keeps the departed state.
     */
    method DisconnectClient(task: Task) returns (outcome: Outcome)
      requires Valid()
      modifies this, clients.Values
      ensures Valid()
      ensures outcome == KeyError <==> task !in old(clients)
      ensures task !in old(clients) ==> clients == old(clients) && Abstract() == old(Abstract())
      ensures task in old(clients) ==>
        clients == old(clients) - {task} &&
        Abstract() == Disconnect(old(Abstract()), task).0 &&
        old(clients[task]).View() == Disconnect(old(Abstract()), task).1
    {
      if task !in clients {
        return KeyError;
      }
      ghost var reg0 := Abstract();
      var client := clients[task];
      ExcludeOne(task);
      BroadcastMessage(client.nickname + " has left!", {client});
      ghost var left := Abstract();
      clients := clients - {task};
      client.SendMessage(QuitMarker);
      ViewsMatch(clients, left - {task});
      outcome := Done;
    }

    /** `shutdown_server`: `quit` to every session. */
    method ShutdownServer()
      requires Valid()
      modifies clients.Values
      ensures Abstract() == Shutdown(old(Abstract()))
    {
      ghost var reg0 := Abstract();
      var todo := clients.Keys;
      while todo != {}
        invariant todo <= clients.Keys
        invariant forall t :: t in clients ==>
          clients[t].View() == if t !in todo then Deliver(reg0[t], QuitMarker) else reg0[t]
        decreases todo
      {
        var t :| t in todo;
        clients[t].SendMessage(QuitMarker);
        todo := todo - {t};
      }
      ViewsMatch(clients, Shutdown(reg0));
    }
  }
}
