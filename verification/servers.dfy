/** The lobby server's bookkeeping (src/server.cpp): NUL-delimited framing of the bytes a
    connection receives, attribute reading from parsed messages, the lobby message, the
    per-nick outgoing message queues and their delivery, leaving a game on entering the
    lobby, player records created on demand, and the write-back schedule. Sockets,
    timers, XML parsing and files are not part of this model: a socket is a number, a
    parsed element's attributes a map, and what would be sent or written is returned. */
module Servers {
  import opened Wrappers
  import Text
  import PlayerInfos

  type Socket = nat

  const Nul: char := '\0'

  // ---------------------------------------------------------------- framing

  /** The framing of a byte stream: starting from the buffered `partial`, each NUL
      completes one message (the buffered bytes and the NUL) and empties the buffer; the
      result is the completed messages, in order, and what stays buffered. */
  function Frame(partial: string, data: string): (r: (seq<string>, string))
    decreases |data|
  {
    if data == [] then ([], partial)
    else if data[0] == Nul then
      var rest := Frame([], data[1..]);
      ([partial + [Nul]] + rest.0, rest.1)
    else Frame(partial + [data[0]], data[1..])
  }

  /** What arrives in two chunks frames as what arrives in one: the framing does not
      depend on where the stream is cut. */
  lemma {:induction false} FrameConcat(partial: string, a: string, b: string)
    ensures var first := Frame(partial, a);
      var second := Frame(first.1, b);
      Frame(partial, a + b) == (first.0 + second.0, second.1)
    decreases |a|
  {
    if a == [] {
      assert a + b == b;
      assert [] + Frame(partial, b).0 == Frame(partial, b).0;
    } else {
      assert (a + b)[0] == a[0] && (a + b)[1..] == a[1..] + b;
      if a[0] == Nul {
        FrameConcat([], a[1..], b);
        var f1 := Frame([], a[1..]);
        var f2 := Frame(f1.1, b);
        assert [partial + [Nul]] + (f1.0 + f2.0) == ([partial + [Nul]] + f1.0) + f2.0;
      } else {
        FrameConcat(partial + [a[0]], a[1..], b);
      }
    }
  }

  /** Each framed message ends with its NUL and holds no other; the buffer left over
      holds none when the one before held none. */
  lemma {:induction false} FrameMessages(partial: string, data: string)
    requires Nul !in partial
    ensures var r := Frame(partial, data);
      (forall i :: 0 <= i < |r.0| ==> r.0[i] != [] && r.0[i][|r.0[i]| - 1] == Nul && Nul !in r.0[i][..|r.0[i]| - 1])
      && Nul !in r.1
    decreases |data|
  {
    if data != [] {
      if data[0] == Nul {
        FrameMessages([], data[1..]);
        var m := partial + [Nul];
        assert m[..|m| - 1] == partial;
      } else {
        FrameMessages(partial + [data[0]], data[1..]);
      }
    }
  }

  /** Bytes before the first NUL only extend the buffer. */
  lemma {:induction false} FrameSkip(partial: string, data: string, k: nat)
    requires k <= |data| && Nul !in data[..k]
    ensures Frame(partial, data) == Frame(partial + data[..k], data[k..])
    decreases k
  {
    if k > 0 {
      assert data[0] == data[..k][0];
      FrameSkip(partial + [data[0]], data[1..], k - 1);
      assert data[1..][..k - 1] == data[1..k];
      assert partial + [data[0]] + data[1..k] == partial + data[..k];
      assert data[1..][k - 1..] == data[k..];
    } else {
      assert partial + data[..0] == partial;
    }
  }

  /** `std::find(i1, i2, 0)`: the position of the first NUL, or the end. */
  method FindNul(data: string) returns (k: nat)
    ensures k <= |data| && Nul !in data[..k]
    ensures k < |data| ==> data[k] == Nul
  {
    k := 0;
    while k != |data| && data[k] != Nul
      invariant k <= |data| && Nul !in data[..k]
    {
      assert data[..k + 1] == data[..k] + [data[k]];
      k := k + 1;
    }
  }

  // ---------------------------------------------------------------- lobby

  /** `game_info`: whether its game has started, and the nicks of its clients. */
  datatype GameInfo = GameInfo(started: bool, clients: seq<string>)

  /** One `game` element of the lobby message. */
  function GameEntry(g: GameInfo): string
  {
    "<game started=\"" + (if g.started then "yes" else "no") + "\" clients=\"" + Text.Join(g.clients, ',') + "\"/>"
  }

  function GameEntries(games: seq<GameInfo>): string
  {
    if games == [] then "" else GameEntries(games[..|games| - 1]) + GameEntry(games[|games| - 1])
  }

  /** The text of the lobby message. */
  function LobbyText(games: seq<GameInfo>): string
  {
    "<lobby>" + GameEntries(games) + "</lobby>"
  }

  /** `create_lobby_msg`'s inner loop: the clients with a comma before every one but the
      first. */
  method ClientList(clients: seq<string>) returns (s: string)
    ensures s == Text.Join(clients, ',')
  {
    s := "";
    var first := true;
    var n := 0;
    while n != |clients|
      invariant 0 <= n <= |clients|
      invariant first <==> n == 0
      invariant s == Text.Join(clients[..n], ',')
    {
      Text.JoinSnoc(clients[..n], clients[n], ',');
      assert clients[..n + 1] == clients[..n] + [clients[n]];
      if !first {
        s := s + ",";
      } else {
        first := false;
      }
      s := s + clients[n];
      n := n + 1;
    }
    assert clients[..n] == clients;
  }

  /** A nick list written into the lobby message reads back with `util::split`, when
      the nicks are non-empty, free of commas and of surrounding white space. */
  lemma ClientListReadsBack(clients: seq<string>)
    requires forall i :: 0 <= i < |clients| ==> clients[i] != [] && Text.Trimmed(clients[i]) && ',' !in clients[i]
    ensures Text.Split(Text.Join(clients, ','), ',') == clients
  {
    Text.SplitJoin(clients, ',');
  }

  /** The games left once `nick` enters the lobby: those that did not list it, in order. */
  function Remaining(games: seq<GameInfo>, nick: string): (r: seq<GameInfo>)
    ensures |r| <= |games|
  {
    if games == [] then []
    else
      var last := games[|games| - 1];
      Remaining(games[..|games| - 1], nick) + (if nick in last.clients then [] else [last])
  }

  /** After entering the lobby no remaining game lists the nick, and every game that
      did not list it stays. */
  lemma {:induction false} RemainingMembers(games: seq<GameInfo>, nick: string)
    ensures forall g :: g in Remaining(games, nick) <==> g in games && nick !in g.clients
  {
    if games != [] {
      var init := games[..|games| - 1];
      var last := games[|games| - 1];
      RemainingMembers(init, nick);
      assert games == init + [last];
      var w := Remaining(init, nick);
      if nick in last.clients {
        assert Remaining(games, nick) == w + [];
      } else {
        assert Remaining(games, nick) == w + [last];
      }
    }
  }

  /** Games none of which lists the nick are all kept, in order. */
  lemma {:induction false} RemainingKeepsOthers(games: seq<GameInfo>, nick: string)
    requires forall i :: 0 <= i < |games| ==> nick !in games[i].clients
    ensures Remaining(games, nick) == games
  {
    if games != [] {
      var k := |games| - 1;
      var init := games[..k];
      forall i | 0 <= i < |init| ensures nick !in init[i].clients {
        assert init[i] == games[i];
      }
      RemainingKeepsOthers(init, nick);
      assert nick !in games[k].clients;
      assert games == init + [games[k]];
    }
  }

  /** Entering the lobby twice leaves the games as entering once does. */
  lemma RemainingIdempotent(games: seq<GameInfo>, nick: string)
    ensures Remaining(Remaining(games, nick), nick) == Remaining(games, nick)
  {
    var r := Remaining(games, nick);
    RemainingMembers(games, nick);
    assert forall i :: 0 <= i < |r| ==> r[i] in r;
    RemainingKeepsOthers(r, nick);
  }

  // ---------------------------------------------------------------- write schedule

  /** `schedule_write`'s target after a call at heartbeat `nheartbeat`: set to ten beats
      later only while it is zero. */
  function ScheduledAfter(scheduled: int, nheartbeat: int): int
  {
    if scheduled != 0 then scheduled else nheartbeat + 10
  }

  /** Once set (at a non-negative heartbeat) the target never changes again, so every
      heartbeat from then on writes the data out. */
  lemma ScheduleSticks(scheduled: int, n1: int, n2: int)
    requires n1 >= 0
    ensures ScheduledAfter(ScheduledAfter(scheduled, n1), n2) == ScheduledAfter(scheduled, n1)
    ensures ScheduledAfter(scheduled, n1) != 0
  {
  }

  // ---------------------------------------------------------------- the server

  /** A connection's `socket_info`: its partial message and the nick it logged in as. */
  datatype SocketInfo = SocketInfo(partial: string, nick: string)

  /** What the server sends on a socket. */
  datatype Send = Send(socket: Socket, text: string)

  /** A map lookup that reads a missing entry as the default-constructed value, as
      `operator[]` does. */
  function Lookup(m: map<string, seq<string>>, k: string): seq<string>
  {
    if k in m then m[k] else []
  }

  function InfoOf(m: map<Socket, SocketInfo>, s: Socket): SocketInfo
  {
    if s in m then m[s] else SocketInfo([], "")
  }

  /** `xml_int`: the attribute read as a number the way `atoi` reads one, and 0 when
      the element lacks it. */
  function XmlInt(attrs: map<string, string>, key: string): int
  {
    if key in attrs then Text.Atoi(attrs[key]) else 0
  }

  /** `xml_str`: the attribute, and "" when the element lacks it. */
  function XmlStr(attrs: map<string, string>, key: string): string
  {
    if key in attrs then attrs[key] else ""
  }

  /** A number written into an attribute reads back; a missing attribute reads as 0 and
      as the empty string. */
  lemma XmlAttributesReadBack(attrs: map<string, string>, key: string, n: int)
    ensures XmlInt(attrs[key := Text.IntToString(n)], key) == n
    ensures XmlStr(attrs[key := Text.IntToString(n)], key) == Text.IntToString(n)
    ensures key !in attrs ==> XmlInt(attrs, key) == 0 && XmlStr(attrs, key) == ""
  {
    Text.AtoiIntToString(n);
  }

  /** `server`: the connections, the per-nick message queues (`clients_[nick].msg_queue`),
      the games, the sockets waiting for a message, the player records, and the heartbeat
      count and write target. `queued` and `delivered` record, per nick, every message
      ever queued and every message ever sent from the queue. */
  const HeartbeatText: string := "<heartbeat/>"

  /** The messages taken from `nick`'s queue by a run of sends, in order: the texts of
      the sends marked as queue messages (`isMsg`) whose socket belongs to the nick. */
  function SentTo(sent: seq<Send>, isMsg: seq<bool>, conns: map<Socket, SocketInfo>, nick: string): seq<string>
    requires |isMsg| == |sent|
  {
    if sent == [] then []
    else
      var k := |sent| - 1;
      SentTo(sent[..k], isMsg[..k], conns, nick)
        + (if isMsg[k] && InfoOf(conns, sent[k].socket).nick == nick then [sent[k].text] else [])
  }

  lemma SentToSnoc(sent: seq<Send>, isMsg: seq<bool>, conns: map<Socket, SocketInfo>, nick: string,
                   m: Send, b: bool)
    requires |isMsg| == |sent|
    ensures SentTo(sent + [m], isMsg + [b], conns, nick)
            == SentTo(sent, isMsg, conns, nick) + (if b && InfoOf(conns, m.socket).nick == nick then [m.text] else [])
  {
    assert (sent + [m])[..|sent|] == sent && (isMsg + [b])[..|sent|] == isMsg;
  }

  /** One waiting socket offered a message: its nick's entry is created if missing
      (`operator[]`); when the queue holds something, the front message is sent and
      popped (`popped`); otherwise a heartbeat is sent on a heartbeat beat, and nothing
      otherwise. */
  predicate DeliveredOne(conns: map<Socket, SocketInfo>, queues: map<string, seq<string>>,
                         queues': map<string, seq<string>>, s: Socket, sendHeartbeat: bool,
                         m: Option<Send>, popped: bool)
  {
    var nick := InfoOf(conns, s).nick;
    var q := Lookup(queues, nick);
    popped == (q != [])
    && queues' == queues[nick := if q == [] then [] else q[1..]]
    && (q != [] ==> m == Some(Send(s, q[0])))
    && (q == [] && sendHeartbeat ==> m == Some(Send(s, HeartbeatText)))
    && (q == [] && !sendHeartbeat ==> m == None)
  }

  /** `done` lists, without repeats, the sockets of `sent`, all of them offered
      (waiting and out of `todo`); a heartbeat went only to a socket whose nick's queue
      is empty, on a heartbeat beat. */
  ghost predicate SendsRecorded(w: map<Socket, string>, todo: set<Socket>, conns: map<Socket, SocketInfo>,
                                queues: map<string, seq<string>>, sent: seq<Send>, isMsg: seq<bool>,
                                done: seq<Socket>, sendHeartbeat: bool)
  {
    |done| == |sent| == |isMsg|
    && (forall i :: 0 <= i < |sent| ==> sent[i].socket == done[i] && done[i] in w && done[i] !in todo)
    && (forall i, j :: 0 <= i < j < |done| ==> done[i] != done[j])
    && (forall i :: 0 <= i < |sent| && !isMsg[i] ==>
          sendHeartbeat && sent[i].text == HeartbeatText && Lookup(queues, InfoOf(conns, done[i]).nick) == [])
  }

  /** An offered socket that was sent nothing found its nick's queue empty on a beat
      that is not a heartbeat beat. */
  ghost predicate SkippedEmpty(w: map<Socket, string>, todo: set<Socket>, conns: map<Socket, SocketInfo>,
                               queues: map<string, seq<string>>, done: seq<Socket>, sendHeartbeat: bool)
  {
    forall s :: s in w && s !in todo && s !in done ==> !sendHeartbeat && Lookup(queues, InfoOf(conns, s).nick) == []
  }

  /** Every nick's old queue is what was sent from it, in order, followed by what is left. */
  ghost predicate QueuesSplit(q0: map<string, seq<string>>, queues: map<string, seq<string>>,
                              sent: seq<Send>, isMsg: seq<bool>, conns: map<Socket, SocketInfo>)
  {
    |isMsg| == |sent| &&
    forall nick :: Lookup(q0, nick) == SentTo(sent, isMsg, conns, nick) + Lookup(queues, nick)
  }

  /** The queue entries are the old ones plus those of the offered sockets' nicks. */
  ghost predicate EntriesCreated(w: map<Socket, string>, todo: set<Socket>, conns: map<Socket, SocketInfo>,
                                 q0: map<string, seq<string>>, queues: map<string, seq<string>>)
  {
    (forall s :: s in w && s !in todo ==> InfoOf(conns, s).nick in queues)
    && q0.Keys <= queues.Keys
    && (forall k :: k in queues && k !in q0 ==> exists s :: s in w && s !in todo && InfoOf(conns, s).nick == k)
  }

  /** The sockets that were sent something. */
  function SocketsOf(sent: seq<Send>): (r: set<Socket>)
    ensures forall i :: 0 <= i < |sent| ==> sent[i].socket in r
    ensures forall s :: s in r ==> exists i :: 0 <= i < |sent| && sent[i].socket == s
  {
    set i | 0 <= i < |sent| :: sent[i].socket
  }

  /** When `done` lists the sockets of `sent` in order, both name the same sockets. */
  lemma SocketsOfDone(sent: seq<Send>, done: seq<Socket>)
    requires |done| == |sent| && forall i :: 0 <= i < |sent| ==> done[i] == sent[i].socket
    ensures (set s | s in done) == SocketsOf(sent)
  {
    forall s | s in done ensures s in SocketsOf(sent) {
      var i :| 0 <= i < |done| && done[i] == s;
    }
  }

  /** Where the heartbeat loop stands once the waiting sockets `w` outside `todo` have
      been offered a message, starting from the queues `q0`. */
  ghost predicate Offered(w: map<Socket, string>, todo: set<Socket>, conns: map<Socket, SocketInfo>,
                          q0: map<string, seq<string>>, queues: map<string, seq<string>>,
                          sent: seq<Send>, isMsg: seq<bool>, done: seq<Socket>, sendHeartbeat: bool)
  {
    SendsRecorded(w, todo, conns, queues, sent, isMsg, done, sendHeartbeat)
    && SkippedEmpty(w, todo, conns, queues, done, sendHeartbeat)
    && QueuesSplit(q0, queues, sent, isMsg, conns)
    && EntriesCreated(w, todo, conns, q0, queues)
  }

  /** Offering one more socket keeps `Offered`. */
  lemma OfferedStep(w: map<Socket, string>, todo: set<Socket>, conns: map<Socket, SocketInfo>,
                    q0: map<string, seq<string>>, queues: map<string, seq<string>>,
                    queues': map<string, seq<string>>, sent: seq<Send>, isMsg: seq<bool>,
                    done: seq<Socket>, sendHeartbeat: bool, s: Socket, m: Option<Send>, popped: bool)
    requires Offered(w, todo, conns, q0, queues, sent, isMsg, done, sendHeartbeat)
    requires s in todo && s in w
    requires DeliveredOne(conns, queues, queues', s, sendHeartbeat, m, popped)
    ensures m.Some? ==> Offered(w, todo - {s}, conns, q0, queues', sent + [m.value], isMsg + [popped],
                                done + [s], sendHeartbeat)
    ensures m.None? ==> Offered(w, todo - {s}, conns, q0, queues', sent, isMsg, done, sendHeartbeat)
  {
    var sent', isMsg', done' := sent, isMsg, done;
    if m.Some? {
      sent', isMsg', done' := sent + [m.value], isMsg + [popped], done + [s];
    }
    SendsStep(w, todo, conns, queues, queues', sent, isMsg, done, sendHeartbeat, s, m, popped);
    SkippedStep(w, todo, conns, queues, queues', done, sendHeartbeat, s, m, popped);
    SplitStep(q0, queues, queues', sent, isMsg, conns, s, sendHeartbeat, m, popped);
    EntriesStep(w, todo, conns, q0, queues, queues', s);
  }

  lemma SendsStep(w: map<Socket, string>, todo: set<Socket>, conns: map<Socket, SocketInfo>,
                  queues: map<string, seq<string>>, queues': map<string, seq<string>>,
                  sent: seq<Send>, isMsg: seq<bool>, done: seq<Socket>, sendHeartbeat: bool,
                  s: Socket, m: Option<Send>, popped: bool)
    requires SendsRecorded(w, todo, conns, queues, sent, isMsg, done, sendHeartbeat)
    requires s in todo && s in w
    requires DeliveredOne(conns, queues, queues', s, sendHeartbeat, m, popped)
    ensures m.Some? ==> SendsRecorded(w, todo - {s}, conns, queues', sent + [m.value], isMsg + [popped],
                                      done + [s], sendHeartbeat)
    ensures m.None? ==> SendsRecorded(w, todo - {s}, conns, queues', sent, isMsg, done, sendHeartbeat)
  {
    var n := InfoOf(conns, s).nick;
    assert forall k :: k != n ==> Lookup(queues', k) == Lookup(queues, k);
  }

  lemma SkippedStep(w: map<Socket, string>, todo: set<Socket>, conns: map<Socket, SocketInfo>,
                    queues: map<string, seq<string>>, queues': map<string, seq<string>>,
                    done: seq<Socket>, sendHeartbeat: bool, s: Socket, m: Option<Send>, popped: bool)
    requires SkippedEmpty(w, todo, conns, queues, done, sendHeartbeat)
    requires s in todo && s in w
    requires DeliveredOne(conns, queues, queues', s, sendHeartbeat, m, popped)
    ensures m.Some? ==> SkippedEmpty(w, todo - {s}, conns, queues', done + [s], sendHeartbeat)
    ensures m.None? ==> SkippedEmpty(w, todo - {s}, conns, queues', done, sendHeartbeat)
  {
    var n := InfoOf(conns, s).nick;
    assert forall k :: k != n ==> Lookup(queues', k) == Lookup(queues, k);
  }

  lemma SplitStep(q0: map<string, seq<string>>, queues: map<string, seq<string>>,
                  queues': map<string, seq<string>>, sent: seq<Send>, isMsg: seq<bool>,
                  conns: map<Socket, SocketInfo>, s: Socket, sendHeartbeat: bool, m: Option<Send>, popped: bool)
    requires QueuesSplit(q0, queues, sent, isMsg, conns)
    requires DeliveredOne(conns, queues, queues', s, sendHeartbeat, m, popped)
    ensures m.Some? ==> QueuesSplit(q0, queues', sent + [m.value], isMsg + [popped], conns)
    ensures m.None? ==> QueuesSplit(q0, queues', sent, isMsg, conns)
  {
    if m.Some? {
      forall nick ensures Lookup(q0, nick) == SentTo(sent + [m.value], isMsg + [popped], conns, nick) + Lookup(queues', nick) {
        SentToSnoc(sent, isMsg, conns, nick, m.value, popped);
        SplitOne(q0, queues, queues', SentTo(sent, isMsg, conns, nick), conns, s, sendHeartbeat, m, popped, nick);
      }
    } else {
      forall nick ensures Lookup(q0, nick) == SentTo(sent, isMsg, conns, nick) + Lookup(queues', nick) {
        SplitOne(q0, queues, queues', SentTo(sent, isMsg, conns, nick), conns, s, sendHeartbeat, m, popped, nick);
      }
    }
  }

  /** One nick's part of `SplitStep`: `before` is what was sent from its queue so far. */
  lemma SplitOne(q0: map<string, seq<string>>, queues: map<string, seq<string>>,
                 queues': map<string, seq<string>>, before: seq<string>,
                 conns: map<Socket, SocketInfo>, s: Socket, sendHeartbeat: bool, m: Option<Send>, popped: bool,
                 nick: string)
    requires Lookup(q0, nick) == before + Lookup(queues, nick)
    requires DeliveredOne(conns, queues, queues', s, sendHeartbeat, m, popped)
    ensures var mine := m.Some? && popped && InfoOf(conns, m.value.socket).nick == nick;
            Lookup(q0, nick) == before + (if mine then [m.value.text] else []) + Lookup(queues', nick)
  {
    var q := Lookup(queues, nick);
    if nick == InfoOf(conns, s).nick && popped {
      assert q == [q[0]] + q[1..];
    }
  }

  lemma EntriesStep(w: map<Socket, string>, todo: set<Socket>, conns: map<Socket, SocketInfo>,
                    q0: map<string, seq<string>>, queues: map<string, seq<string>>,
                    queues': map<string, seq<string>>, s: Socket)
    requires EntriesCreated(w, todo, conns, q0, queues)
    requires s in todo && s in w
    requires queues'.Keys == queues.Keys + {InfoOf(conns, s).nick}
    ensures EntriesCreated(w, todo - {s}, conns, q0, queues')
  {
    var n := InfoOf(conns, s).nick;
    forall k | k in queues' && k !in q0
      ensures exists s' :: s' in w && s' !in todo - {s} && InfoOf(conns, s').nick == k
    {
      if k != n {
        var s' :| s' in w && s' !in todo && InfoOf(conns, s').nick == k;
        assert s' != s;
      }
    }
  }

  lemma UpdateTwice<K, V>(m: map<K, V>, k: K, a: V, b: V)
    ensures m[k := a][k := b] == m[k := b]
  {
  }

  lemma SnocTwice<T>(s: seq<T>, a: T, b: T)
    ensures s + [a] + [b] == s + [a, b]
  {
  }

  class Server {
    var connections: map<Socket, SocketInfo>
    var queues: map<string, seq<string>>
    var games: seq<GameInfo>
    var waiting: map<Socket, string>
    var playerInfo: map<string, PlayerInfos.PlayerInfo>
    var nheartbeat: int
    var scheduledWrite: int
    ghost var queued: map<string, seq<string>>
    ghost var delivered: map<string, seq<string>>

    /** The queues are first in, first out: what was delivered followed by what is still
        queued is exactly what was queued. */
    ghost predicate Valid()
      reads this`queues, this`queued, this`delivered
    {
      forall nick {:trigger Lookup(queued, nick)} :: Lookup(delivered, nick) + Lookup(queues, nick) == Lookup(queued, nick)
    }

    constructor ()
      ensures Valid()
      ensures connections == map[] && queues == map[] && games == [] && waiting == map[]
      ensures playerInfo == map[] && nheartbeat == 0 && scheduledWrite == 0
    {
      connections, queues, games, waiting, playerInfo := map[], map[], [], map[], map[];
      nheartbeat, scheduledWrite := 0, 0;
      queued, delivered := map[], map[];
    }

    /** `handle_incoming_data`: the bytes up to the first NUL join the connection's
        partial message; a NUL completes the message, which is handed on (returned here,
        in order), empties the buffer, and the rest is handled the same way. */
    method HandleIncomingData(socket: Socket, data: string) returns (msgs: seq<string>)
      modifies this`connections
      ensures var f := Frame(InfoOf(old(connections), socket).partial, data);
        msgs == f.0 && connections == old(connections)[socket := InfoOf(old(connections), socket).(partial := f.1)]
      decreases |data|
    {
      var info := InfoOf(connections, socket);
      var k := FindNul(data);
      FrameSkip(info.partial, data, k);
      info := info.(partial := info.partial + data[..k]);
      connections := connections[socket := info];
      msgs := [];
      if k != |data| {
        assert data[k..][1..] == data[k + 1..];
        var msg := info.partial + [Nul];
        connections := connections[socket := info.(partial := [])];
        var more := HandleIncomingData(socket, data[k + 1..]);
        msgs := [msg] + more;
      }
    }

    /** The `login` message: the connection takes the nick. */
    method Login(socket: Socket, name: string)
      modifies this`connections
      ensures connections == old(connections)[socket := InfoOf(old(connections), socket).(nick := name)]
      ensures InfoOf(connections, socket).nick == name
    {
      connections := connections[socket := InfoOf(connections, socket).(nick := name)];
    }

    /** `queue_msg`: appends the message to the nick's queue. */
    method QueueMsg(nick: string, msg: string)
      requires Valid()
      modifies this`queues, this`queued
      ensures Valid()
      ensures queues == old(queues)[nick := Lookup(old(queues), nick) + [msg]]
      ensures queued == old(queued)[nick := Lookup(old(queued), nick) + [msg]]
    {
      queues := queues[nick := Lookup(queues, nick) + [msg]];
      queued := queued[nick := Lookup(queued, nick) + [msg]];
      forall k ensures Lookup(delivered, k) + Lookup(queues, k) == Lookup(queued, k) {
        assert Lookup(delivered, k) + Lookup(old(queues), k) == Lookup(old(queued), k);
        if k == nick {
          assert Lookup(delivered, k) + (Lookup(old(queues), k) + [msg]) == (Lookup(delivered, k) + Lookup(old(queues), k)) + [msg];
        }
      }
    }

    /** Sending from a queue: the front message leaves the nick's queue and is the one
        delivered. */
    method PopFront(nick: string) returns (msg: string)
      requires Valid() && Lookup(queues, nick) != []
      modifies this`queues, this`delivered
      ensures Valid()
      ensures msg == Lookup(old(queues), nick)[0] && msg in Lookup(queued, nick)
      ensures queues == old(queues)[nick := Lookup(old(queues), nick)[1..]]
      ensures delivered == old(delivered)[nick := Lookup(old(delivered), nick) + [msg]]
    {
      var q := Lookup(queues, nick);
      msg := q[0];
      queues := queues[nick := q[1..]];
      delivered := delivered[nick := Lookup(delivered, nick) + [msg]];
      assert q == [msg] + q[1..];
      forall k ensures Lookup(delivered, k) + Lookup(queues, k) == Lookup(queued, k) {
        if k == nick {
          assert Lookup(old(delivered), k) + q == (Lookup(old(delivered), k) + [msg]) + q[1..];
        }
      }
      assert Lookup(queued, nick) == Lookup(old(delivered), nick) + q;
      assert Lookup(queued, nick)[|Lookup(old(delivered), nick)|] == msg;
    }

    /** `disconnect`: the socket stops waiting and its connection is forgotten. */
    method Disconnect(socket: Socket)
      modifies this`waiting, this`connections
      ensures waiting == old(waiting) - {socket} && connections == old(connections) - {socket}
    {
      waiting := waiting - {socket};
      connections := connections - {socket};
    }

    /** `clients_[nick]`: looking a nick up creates its client entry, with an empty
        queue, when it has none. */
    method Touch(nick: string)
      requires Valid()
      modifies this`queues
      ensures Valid()
      ensures queues == old(queues)[nick := Lookup(old(queues), nick)]
    {
      queues := queues[nick := Lookup(queues, nick)];
      assert forall k :: Lookup(queues, k) == Lookup(old(queues), k);
    }

    /** `close_ajax` with messages queued for `nick`: another socket waiting for that
        nick (if any) is sent a heartbeat and disconnected, then the front message is sent
        on `socket`, which is disconnected; no other socket changes. */
    method SendFront(socket: Socket, nick: string) returns (sent: seq<Send>)
      requires Valid() && Lookup(queues, nick) != []
      modifies this`waiting, this`connections, this`queues, this`delivered
      ensures Valid()
      ensures 1 <= |sent| <= 2 && sent[|sent| - 1] == Send(socket, Lookup(old(queues), nick)[0])
      ensures queues == old(queues)[nick := Lookup(old(queues), nick)[1..]]
      ensures delivered == old(delivered)[nick := Lookup(old(delivered), nick) + [Lookup(old(queues), nick)[0]]]
      ensures |sent| == 2 ==> sent[0].text == HeartbeatText && sent[0].socket != socket
                              && sent[0].socket in old(waiting) && old(waiting)[sent[0].socket] == nick
      ensures |sent| == 1 ==> forall s :: s in old(waiting) && old(waiting)[s] == nick ==> s == socket
      ensures var gone := {socket} + (if |sent| == 2 then {sent[0].socket} else {});
        waiting == old(waiting) - gone && connections == old(connections) - gone
    {
      sent := [];
      ghost var gone: set<Socket> := {socket};
      if other :| other in waiting && waiting[other] == nick && other != socket {
        sent := [Send(other, HeartbeatText)];
        Disconnect(other);
        gone := {other, socket};
      }
      var msg := PopFront(nick);
      sent := sent + [Send(socket, msg)];
      Disconnect(socket);
      assert gone == {socket} + (if |sent| == 2 then {sent[0].socket} else {});
      assert waiting == old(waiting) - gone && connections == old(connections) - gone;
    }

    /** `close_ajax`: the socket's nick gets a client entry if it had none; with messages
        queued for it, `SendFront` runs; with none queued, the socket waits for the nick. */
    method CloseAjax(socket: Socket) returns (sent: seq<Send>)
      requires Valid()
      modifies this`waiting, this`connections, this`queues, this`delivered
      ensures Valid()
      ensures var nick := InfoOf(old(connections), socket).nick;
        if Lookup(old(queues), nick) == [] then
          sent == [] && waiting == old(waiting)[socket := nick] && queues == old(queues)[nick := []]
          && connections == old(connections) && delivered == old(delivered)
        else
          1 <= |sent| <= 2 && sent[|sent| - 1] == Send(socket, Lookup(old(queues), nick)[0])
          && queues == old(queues)[nick := Lookup(old(queues), nick)[1..]]
          && socket !in waiting && socket !in connections
          && (|sent| == 2 ==> sent[0].text == HeartbeatText && sent[0].socket != socket
                              && sent[0].socket in old(waiting) && old(waiting)[sent[0].socket] == nick
                              && sent[0].socket !in waiting)
          && (|sent| == 1 ==> forall s :: s in old(waiting) && old(waiting)[s] == nick ==> s == socket)
          && waiting == old(waiting) - ({socket} + (if |sent| == 2 then {sent[0].socket} else {}))
          && connections == old(connections) - ({socket} + (if |sent| == 2 then {sent[0].socket} else {}))
          && delivered == old(delivered)[nick := Lookup(old(delivered), nick) + [Lookup(old(queues), nick)[0]]]
    {
      var nick := InfoOf(connections, socket).nick;
      if Lookup(queues, nick) == [] {
        Touch(nick);
        waiting := waiting[socket := nick];
        return [];
      }
      sent := SendFront(socket, nick);
    }

    /** `schedule_write`. */
    method ScheduleWrite()
      modifies this`scheduledWrite
      ensures scheduledWrite == ScheduledAfter(old(scheduledWrite), nheartbeat)
    {
      if scheduledWrite != 0 {
        return;
      }
      scheduledWrite := nheartbeat + 10;
    }

    /** One waiting socket at a heartbeat, as `DeliveredOne` says: the front message of
        its nick's queue, popped, or else a heartbeat on a heartbeat beat, or else nothing;
        the nick's entry exists afterwards. */
    method DeliverTo(socket: Socket, sendHeartbeat: bool) returns (m: Option<Send>, ghost popped: bool)
      requires Valid()
      modifies this`queues, this`delivered
      ensures Valid()
      ensures DeliveredOne(connections, old(queues), queues, socket, sendHeartbeat, m, popped)
    {
      var nick := InfoOf(connections, socket).nick;
      if Lookup(queues, nick) != [] {
        var msg := PopFront(nick);
        return Some(Send(socket, msg)), true;
      }
      Touch(nick);
      popped := false;
      if sendHeartbeat {
        return Some(Send(socket, HeartbeatText)), popped;
      }
      return None, popped;
    }

    /** `heartbeat`'s loop over the waiting sockets: each is offered a message as
        `DeliverTo` says; `done` lists, in the order of `sent`, the sockets sent one, and
        `isMsg` marks the sends taken from a queue. */
    method DeliverAll(sendHeartbeat: bool) returns (sent: seq<Send>, done: seq<Socket>, ghost isMsg: seq<bool>)
      requires Valid()
      modifies this`queues, this`delivered
      ensures Valid()
      ensures Offered(waiting, {}, connections, old(queues), queues, sent, isMsg, done, sendHeartbeat)
    {
      sent, done, isMsg := [], [], [];
      var w, conns, q := waiting, connections, queued;
      ghost var q0 := queues;
      var todo := w.Keys;
      while todo != {}
        invariant Valid() && waiting == w && connections == conns && queued == q
        invariant todo <= w.Keys
        invariant Offered(w, todo, conns, q0, queues, sent, isMsg, done, sendHeartbeat)
        decreases todo
      {
        var s :| s in todo;
        ghost var before := queues;
        var m, popped := DeliverTo(s, sendHeartbeat);
        OfferedStep(w, todo, conns, q0, before, queues, sent, isMsg, done, sendHeartbeat, s, m, popped);
        todo := todo - {s};
        if m.Some? {
          sent, isMsg, done := sent + [m.value], isMsg + [popped], done + [s];
        }
      }
    }

    /** Disconnects every socket of `done`, in order. */
    method DisconnectAll(done: seq<Socket>)
      modifies this`waiting, this`connections
      ensures waiting == old(waiting) - (set s | s in done)
      ensures connections == old(connections) - (set s | s in done)
    {
      var n := 0;
      while n != |done|
        invariant 0 <= n <= |done|
        invariant waiting == old(waiting) - (set s | s in done[..n])
        invariant connections == old(connections) - (set s | s in done[..n])
      {
        assert done[..n + 1] == done[..n] + [done[n]];
        Disconnect(done[n]);
        n := n + 1;
      }
      assert done[..n] == done;
    }

    /** `heartbeat`: every tenth beat is a heartbeat beat. Each waiting socket whose
        nick has a message queued is sent the front one, which leaves the queue;
        otherwise, on a heartbeat beat, it is sent a heartbeat. Every socket sent
        something is disconnected, and the others keep waiting. The data is written out
        (`writes`) whenever the beat count has reached the write target, which nothing
        resets. `isMsg` marks the sends taken from a queue. */
    method Heartbeat() returns (sent: seq<Send>, writes: bool, ghost isMsg: seq<bool>)
      requires Valid()
      modifies this`nheartbeat, this`queues, this`delivered, this`waiting, this`connections
      ensures Valid()
      ensures nheartbeat == old(nheartbeat) + 1
      ensures writes <==> nheartbeat >= scheduledWrite
      ensures |isMsg| == |sent|
      ensures forall i :: 0 <= i < |sent| ==> sent[i].socket in old(waiting) && sent[i].socket !in waiting
      ensures forall i, j :: 0 <= i < j < |sent| ==> sent[i].socket != sent[j].socket
      ensures forall s :: s in waiting <==> s in old(waiting) && forall i :: 0 <= i < |sent| ==> sent[i].socket != s
      ensures forall s :: s in waiting ==> waiting[s] == old(waiting)[s]
                                           && Lookup(queues, InfoOf(old(connections), s).nick) == []
      ensures old(nheartbeat) % 10 == 0 ==> waiting.Keys == {}
      ensures forall i :: 0 <= i < |sent| && !isMsg[i] ==>
                old(nheartbeat) % 10 == 0 && sent[i].text == HeartbeatText
                && Lookup(queues, InfoOf(old(connections), sent[i].socket).nick) == []
      ensures forall nick :: Lookup(old(queues), nick) == SentTo(sent, isMsg, old(connections), nick) + Lookup(queues, nick)
      ensures old(queues).Keys <= queues.Keys
      ensures forall s :: s in old(waiting) ==> InfoOf(old(connections), s).nick in queues
      ensures waiting == old(waiting) - SocketsOf(sent)
      ensures connections == old(connections) - SocketsOf(sent)
    {
      var sendHeartbeat := nheartbeat % 10 == 0;
      nheartbeat := nheartbeat + 1;
      var done;
      sent, done, isMsg := DeliverAll(sendHeartbeat);
      DisconnectAll(done);
      forall i | 0 <= i < |sent| ensures done[i] == sent[i].socket {
        assert sent[i].socket == done[i];
      }
      SocketsOfDone(sent, done);
      writes := nheartbeat >= scheduledWrite;
    }

    /** `get_player_info`: the nick's record, created when absent with the id set to
        the nick (the new record is read from deck.xml, whose contents, and the list of
        all cards, are the other parameters). */
    method GetPlayerInfo(id: string, deckId: string, gains: seq<int>, spells: seq<string>, allCards: seq<string>)
      returns (p: PlayerInfos.PlayerInfo)
      modifies this`playerInfo
      ensures id in playerInfo && p == playerInfo[id]
      ensures id in old(playerInfo) ==> p == old(playerInfo)[id] && playerInfo == old(playerInfo)
      ensures id !in old(playerInfo) ==> fresh(p) && p.id == id && playerInfo == old(playerInfo)[id := p]
      ensures id !in old(playerInfo) ==> p.deck == spells && p.collection == PlayerInfos.RemoveDummies(allCards)
    {
      if id in playerInfo {
        return playerInfo[id];
      }
      p := new PlayerInfos.PlayerInfo(deckId, gains, spells, allCards);
      p.id := id;
      playerInfo := playerInfo[id := p];
    }

    /** `enter_lobby`'s game removal: every game listing the nick is dropped (its slot is
        reset, then the empty slots are erased); the order of the others is kept. */
    method LeaveGames(nick: string)
      modifies this`games
      ensures games == Remaining(old(games), nick)
      ensures forall g :: g in games <==> g in old(games) && nick !in g.clients
    {
      RemainingMembers(games, nick);
      var slots: seq<Option<GameInfo>> := [];
      var n := 0;
      while n != |games|
        invariant 0 <= n <= |games| && |slots| == n
        invariant forall i :: 0 <= i < n ==> slots[i] == if nick in games[i].clients then None else Some(games[i])
      {
        if nick in games[n].clients {
          slots := slots + [None];
        } else {
          slots := slots + [Some(games[n])];
        }
        n := n + 1;
      }
      var kept: seq<GameInfo> := [];
      n := 0;
      while n != |slots|
        invariant 0 <= n <= |slots|
        invariant kept == Remaining(games[..n], nick)
      {
        assert games[..n + 1][..n] == games[..n];
        if slots[n].Some? {
          kept := kept + [slots[n].value];
        }
        n := n + 1;
      }
      assert games[..n] == games;
      games := kept;
    }

    /** `enter_lobby` for the socket's nick: the nick leaves every game it was in, is
        queued the lobby message and then its player record, which is created when it
        has none. Writing the record out as XML is not part of this model: its text is
        `playerXml`, and the inputs of a new record are the last four parameters. */
    method EnterLobby(socket: Socket, playerXml: string, deckId: string, gains: seq<int>, spells: seq<string>, allCards: seq<string>)
      returns (p: PlayerInfos.PlayerInfo)
      requires Valid()
      modifies this`games, this`queues, this`queued, this`playerInfo
      ensures Valid()
      ensures var nick := InfoOf(connections, socket).nick;
        games == Remaining(old(games), nick)
        && queues == old(queues)[nick := Lookup(old(queues), nick) + [LobbyText(games), playerXml]]
        && nick in playerInfo && p == playerInfo[nick]
        && (nick in old(playerInfo) ==> playerInfo == old(playerInfo))
    {
      var nick := InfoOf(connections, socket).nick;
      LeaveGames(nick);
      ghost var g1 := games;
      ghost var q0 := queues;
      ghost var before := Lookup(q0, nick);
      ghost var lobby := LobbyText(g1);
      Announce(nick);
      ghost var q1 := queues;
      assert games == g1 && q1 == q0[nick := before + [lobby]];
      assert Lookup(q1, nick) == before + [lobby];
      p := GetPlayerInfo(nick, deckId, gains, spells, allCards);
      assert games == g1 && queues == q1;
      QueueMsg(nick, playerXml);
      assert games == g1;
      UpdateTwice(q0, nick, before + [lobby], before + [lobby] + [playerXml]);
      SnocTwice(before, lobby, playerXml);
    }

    /** Queues the lobby message for `nick`. */
    method Announce(nick: string)
      requires Valid()
      modifies this`queues, this`queued
      ensures Valid()
      ensures queues == old(queues)[nick := Lookup(old(queues), nick) + [LobbyText(games)]]
    {
      var msg := CreateLobbyMsg("");
      assert msg == LobbyText(games);
      QueueMsg(nick, msg);
    }

    /** `send_lobby_msg`: every known nick is queued the lobby message. */
    method SendLobbyMsg()
      requires Valid()
      modifies this`queues, this`queued
      ensures Valid()
      ensures queues.Keys == old(queues).Keys
      ensures forall k :: k in queues ==> queues[k] == old(queues)[k] + [LobbyText(games)]
    {
      var msg := CreateLobbyMsg("");
      assert msg == LobbyText(games);
      ghost var q0 := queues;
      var todo := queues.Keys;
      while todo != {}
        invariant Valid() && todo <= q0.Keys && queues.Keys == q0.Keys
        invariant forall k :: k in queues ==> queues[k] == if k in todo then q0[k] else q0[k] + [msg]
        decreases todo
      {
        var nick :| nick in todo;
        todo := todo - {nick};
        QueueMsg(nick, msg);
      }
    }

    /** `create_lobby_msg`: appends the lobby message, one `game` element per game in
        order, to `msg`. */
    method CreateLobbyMsg(msg: string) returns (r: string)
      ensures r == msg + LobbyText(games)
    {
      var entries := WriteGames(games);
      r := msg + "<lobby>" + entries + "</lobby>";
    }
  }

  /** `create_lobby_msg`'s loop: the `game` elements of the games, in order. */
  method WriteGames(gs: seq<GameInfo>) returns (r: string)
    ensures r == GameEntries(gs)
  {
    r := "";
    var n := 0;
    while n != |gs|
      invariant 0 <= n <= |gs|
      invariant r == GameEntries(gs[..n])
    {
      assert gs[..n + 1][..n] == gs[..n];
      var e := WriteGame(gs[n]);
      r := r + e;
      n := n + 1;
    }
    assert gs[..n] == gs;
  }

  /** One `game` element. */
  method WriteGame(g: GameInfo) returns (e: string)
    ensures e == GameEntry(g)
  {
    e := "<game started=\"";
    e := e + (if g.started then "yes" else "no");
    e := e + "\" clients=\"";
    var clients := ClientList(g.clients);
    e := e + clients;
    e := e + "\"/>";
  }
}
