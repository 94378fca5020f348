/**
 * The user layer over a connection (user-connection.js): the `userInfo`
 * record of the player this client is, kept up to date by the listeners of
 * the `U`, `P` and `N` commands, and the authentication message sent once
 * the identity service has answered.
 */
module UserClient {
  import opened Wrappers
  import opened Sequences
  import opened Protocol
  import opened Messages
  import opened Client

  /** Where a player stands and looks: x, y, z and the two rotations. */
  datatype Position = Position(x: Number, y: Number, z: Number, rx: Number, ry: Number)

  /** The `userInfo` record: the player id, the nickname and the position. */
  datatype UserInfo = UserInfo(pid: Number, name: string, pos: Position)

  /** The record `wrapConnection` starts from (lines 29-37): pid 0, no name, everything at 0. */
  const INITIAL := UserInfo(0.0, "", Position(0.0, 0.0, 0.0, 0.0, 0.0))

  /** The events the listeners emit through the wrapped connection. */
  datatype UserEvent =
    | UserPid(username: string, pid: Number)                // "user/pid"
    | UserPosition(name: string, pos: Position)             // "user/position", with the record's name
    | UserName(username: string, name: string, pid: Number) // "user/name"

  /** A command event as the listeners registered at lines 40-42 receive it. */
  datatype Command =
    | UserInfoCmd(pid: Number, pos: Position)  // `U`: the server tells this client its id and position
    | PlayerPos(pid: Number, pos: Position)    // `P`: some player moved
    | PlayerNick(pid: Number, name: string)    // `N`: some player's nickname

  /**
   * The listener call a connection event makes: `U` and `P` with six
   * numbers, `N` with a number and a text. Any other event reaches none of
   * these listeners (`ListenedShape` shows the command events `onMsg` emits
   * for these codes always have this shape).
   */
  function Listened(e: Event): Option<Command> {
    if !e.Cmd? then None
    else if e.code == 'U' || e.code == 'P' then
      if |e.args| == 6 && e.args[0].Num? && e.args[1].Num? && e.args[2].Num?
        && e.args[3].Num? && e.args[4].Num? && e.args[5].Num? then
        var pos := Position(e.args[1].n, e.args[2].n, e.args[3].n, e.args[4].n, e.args[5].n);
        Some(if e.code == 'U' then UserInfoCmd(e.args[0].n, pos) else PlayerPos(e.args[0].n, pos))
      else None
    else if e.code == 'N' && |e.args| == 2 && e.args[0].Num? && e.args[1].Str? then
      Some(PlayerNick(e.args[0].n, e.args[1].s))
    else None
  }

  /**
   * What one listener call does: the new record, the events it emits, and
   * whether it threw. `hasEmit` says whether the wrapped connection object
   * has an `emit` method; calling it where it has none throws, after the
   * assignments made before the call.
   */
  datatype Reaction = Reaction(info: UserInfo, emitted: seq<UserEvent>, threw: bool)

  /** `updatePos` (lines 68-77): the five coordinates are taken, then the position is emitted with the record's name. */
  function Moved(info: UserInfo, hasEmit: bool, pos: Position): (r: Reaction)
    ensures r.info.pid == info.pid && r.info.name == info.name && r.info.pos == pos
    ensures r.threw <==> r.emitted == []
    ensures r.emitted != [] ==> r.emitted == [UserPosition(info.name, pos)]
  {
    var u := info.(pos := pos);
    Reaction(u, if hasEmit then [UserPosition(u.name, pos)] else [], !hasEmit)
  }

  /**
   * The listener of each command (lines 61-92): `onUserInfo` takes the id,
   * emits it and moves; `onPlayerPos` moves and `onPlayerNick` renames, each
   * only for the record's own id.
   */
  function Handle(info: UserInfo, hasEmit: bool, username: string, c: Command): (r: Reaction)
    ensures c.UserInfoCmd? ==>
      && r.info.pid == c.pid && r.info.name == info.name
      && r.info.pos == (if hasEmit then c.pos else info.pos)
      && r.emitted == (if hasEmit then [UserPid(username, c.pid), UserPosition(info.name, c.pos)] else [])
      && r.threw == !hasEmit
    ensures c.PlayerPos? ==>
      && r.info.pid == info.pid && r.info.name == info.name
      && (c.pid != info.pid ==> r == Reaction(info, [], false))
      && (c.pid == info.pid ==>
            r.info.pos == c.pos && r.threw == !hasEmit
            && r.emitted == (if hasEmit then [UserPosition(info.name, c.pos)] else []))
    ensures c.PlayerNick? ==>
      && r.info.pid == info.pid && r.info.pos == info.pos
      && (c.pid != info.pid ==> r == Reaction(info, [], false))
      && (c.pid == info.pid ==>
            r.info.name == c.name && r.threw == !hasEmit
            && r.emitted == (if hasEmit then [UserName(username, c.name, c.pid)] else []))
  {
    match c
    case UserInfoCmd(p, pos) =>
      var u := info.(pid := p);
      if !hasEmit then Reaction(u, [], true)
      else
        var m := Moved(u, hasEmit, pos);
        Reaction(m.info, [UserPid(username, p)] + m.emitted, m.threw)
    case PlayerPos(p, pos) =>
      if p == info.pid then Moved(info, hasEmit, pos) else Reaction(info, [], false)
    case PlayerNick(p, name) =>
      if p == info.pid then
        Reaction(info.(name := name), if hasEmit then [UserName(username, name, p)] else [], !hasEmit)
      else Reaction(info, [], false)
  }

  /** The record after the listeners saw one connection event. */
  function Apply(info: UserInfo, hasEmit: bool, username: string, e: Event): UserInfo {
    match Listened(e)
    case None => info
    case Some(c) => Handle(info, hasEmit, username, c).info
  }

  /** The record after the listeners saw every event of `evs`, in the order the connection emitted them. */
  function Track(info: UserInfo, hasEmit: bool, username: string, evs: seq<Event>): UserInfo
    decreases |evs|
  {
    if evs == [] then info
    else Apply(Track(info, hasEmit, username, evs[..|evs| - 1]), hasEmit, username, evs[|evs| - 1])
  }

  /** The event is a `U` command the listener of line 40 receives. */
  predicate IsUserInfo(e: Event) {
    Listened(e).Some? && Listened(e).value.UserInfoCmd?
  }

  /** The event is a `P` or `N` command about player `pid`. */
  predicate About(pid: Number, e: Event) {
    Listened(e).Some? && !Listened(e).value.UserInfoCmd? && Listened(e).value.pid == pid
  }

  /** The events of `evs` about player `pid`, in order. */
  function Mine(pid: Number, evs: seq<Event>): (r: seq<Event>)
    ensures |r| <= |evs|
    decreases |evs|
  {
    if evs == [] then []
    else
      var rest := Mine(pid, evs[..|evs| - 1]);
      if About(pid, evs[|evs| - 1]) then rest + [evs[|evs| - 1]] else rest
  }

  /** Without a `U` command the id never changes: `P` and `N` do not touch it. */
  lemma {:induction false} PidKept(info: UserInfo, hasEmit: bool, username: string, evs: seq<Event>)
    requires forall k :: 0 <= k < |evs| ==> !IsUserInfo(evs[k])
    ensures Track(info, hasEmit, username, evs).pid == info.pid
    decreases |evs|
  {
    if evs != [] {
      var init := evs[..|evs| - 1];
      assert forall k :: 0 <= k < |init| ==> init[k] == evs[k];
      PidKept(info, hasEmit, username, init);
    }
  }

  /**
   * The pid filter of lines 81 and 88: until the next `U` command, the
   * record is what the `P` and `N` commands about its own id make of it;
   * every command about another player, and every other event, is ignored.
   */
  lemma {:induction false} OthersIgnored(info: UserInfo, hasEmit: bool, username: string, evs: seq<Event>)
    requires forall k :: 0 <= k < |evs| ==> !IsUserInfo(evs[k])
    ensures Track(info, hasEmit, username, evs) == Track(info, hasEmit, username, Mine(info.pid, evs))
    decreases |evs|
  {
    if evs != [] {
      var init, e := evs[..|evs| - 1], evs[|evs| - 1];
      assert forall k :: 0 <= k < |init| ==> init[k] == evs[k];
      OthersIgnored(info, hasEmit, username, init);
      PidKept(info, hasEmit, username, init);
      var mine := Mine(info.pid, init);
      if About(info.pid, e) {
        assert (mine + [e])[..|mine + [e]| - 1] == mine;
      }
    }
  }

  /**
   * The initial id is 0 (line 30), so before any `U` command the `P` and
   * `N` commands for player 0 are applied to the record: the last one of
   * each kind decides the position or the name.
   */
  lemma ZeroBeforeUserInfo(hasEmit: bool, username: string, evs: seq<Event>, e: Event)
    requires forall k :: 0 <= k < |evs| ==> !IsUserInfo(evs[k])
    requires About(0.0, e)
    ensures var u := Track(INITIAL, hasEmit, username, evs + [e]);
      && u.pid == 0.0
      && (Listened(e).value.PlayerPos? ==> u.pos == Listened(e).value.pos)
      && (Listened(e).value.PlayerNick? ==> u.name == Listened(e).value.name)
  {
    PidKept(INITIAL, hasEmit, username, evs);
    assert (evs + [e])[..|evs + [e]| - 1] == evs;
  }

  /**
   * The command events `onMsg` emits for `U`, `P` and `N` always reach
   * their listener: the table gives `U` and `P` six numeric fields and `N`
   * a numeric field and the rest of the message.
   */
  lemma ListenedShape(parse: Parser, str: string)
    requires |str| >= 1 && (str[0] == 'U' || str[0] == 'P' || str[0] == 'N')
    requires Dispatch(parse, str).emitted.Some?
    ensures Listened(Dispatch(parse, str).emitted.value).Some?
  {
    var tags := Parsers[str[0]];
    var segs := Split(str[2..], ARGSEP);
    assert !Malformed(str);
    var p := ParseFields(parse, segs, tags, 0);
    assert p.values.Some?;
    var vs := p.values.value;
    assert Dispatch(parse, str).emitted.value == Cmd(str[0], vs);
    ParsersShape();
    ParseFieldsValues(parse, segs, tags, 0);
    forall t | 0 <= t < |tags| && tags[t] != S
      ensures vs[t].Num?
    {
      NumericField(parse, segs, tags, t, vs[t]);
    }
    assert |vs| == |tags|;
    if str[0] == 'N' {
      assert tags == [I, S];
      assert vs[1] == FieldValue(parse, segs, tags, 1).value;
      assert vs[0].Num? && vs[1].Str?;
    } else {
      assert tags == [I, F, F, F, F, F];
      assert vs[0].Num? && vs[1].Num? && vs[2].Num? && vs[3].Num? && vs[4].Num? && vs[5].Num?;
    }
  }

  /** A numeric field's value is a number. */
  lemma NumericField(parse: Parser, segs: seq<string>, tags: seq<Tag>, t: nat, v: Value)
    requires |segs| >= 1 && t < |tags| && tags[t] != S
    requires FieldValue(parse, segs, tags, t) == Some(v)
    ensures v.Num?
  {
  }

  /**
   * The object `wrapConnection` returns (lines 27-104): the wrapped
   * connection, the user's credentials and the `userInfo` record, with the
   * events the listeners emitted through the connection kept as a log.
   */
  class UserConnection {
    const conn: Connection
    const username: string
    const identityToken: string
    /** Whether `conn` has an `emit` method; the object `connection.open` returns has none. */
    const hasEmit: bool
    var pid: Number
    var name: string
    var x: Number
    var y: Number
    var z: Number
    var rx: Number
    var ry: Number
    var emitted: seq<UserEvent>

    /** The `userInfo` record as a value. */
    function Info(): UserInfo
      reads this`pid, this`name, this`x, this`y, this`z, this`rx, this`ry
    {
      UserInfo(pid, name, Position(x, y, z, rx, ry))
    }

    /** `wrapConnection`: the initial record, nothing emitted yet. */
    constructor Wrap(conn: Connection, username: string, identityToken: string, hasEmit: bool)
      ensures this.conn == conn && this.username == username
      ensures this.identityToken == identityToken && this.hasEmit == hasEmit
      ensures Info() == INITIAL && emitted == []
    {
      this.conn := conn;
      this.username := username;
      this.identityToken := identityToken;
      this.hasEmit := hasEmit;
      pid, name := 0.0, "";
      x, y, z, rx, ry := 0.0, 0.0, 0.0, 0.0, 0.0;
      emitted := [];
    }

    /** `onAuthToken`: without an error the authentication message goes to the send queue; with one nothing is sent. */
    method OnAuthToken(err: bool, authToken: string)
      requires conn.Valid()
      modifies conn`sendQueue, conn`sent, conn`pendingTicks
      ensures conn.Valid()
      ensures conn.sendQueue == old(conn.sendQueue) + (if err then [] else [["A", username, authToken]])
      ensures conn.sent == old(conn.sent) + (if err then [] else [["A", username, authToken]])
      ensures conn.pendingTicks == old(conn.pendingTicks) + (if err then 0 else 1)
    {
      if !err {
        conn.Send(["A", username, authToken]);
      }
    }

    /** One call of `conn.emit`, which throws when the connection object has no `emit`. */
    method Emit(e: UserEvent) returns (threw: bool)
      modifies this`emitted
      ensures threw == !hasEmit
      ensures emitted == old(emitted) + (if hasEmit then [e] else [])
    {
      if !hasEmit {
        return true;
      }
      emitted := emitted + [e];
      return false;
    }

    /** `updatePos`. */
    method UpdatePos(pos: Position) returns (threw: bool)
      modifies this`x, this`y, this`z, this`rx, this`ry, this`emitted
      ensures var r := Moved(old(Info()), hasEmit, pos);
        Info() == r.info && emitted == old(emitted) + r.emitted && threw == r.threw
    {
      x, y, z, rx, ry := pos.x, pos.y, pos.z, pos.rx, pos.ry;
      threw := Emit(UserPosition(name, pos));
    }

    /** `onUserInfo`: the id is taken and emitted, then `updatePos` runs with the same arguments. */
    method OnUserInfo(p: Number, pos: Position) returns (threw: bool)
      modifies this`pid, this`x, this`y, this`z, this`rx, this`ry, this`emitted
      ensures var r := Handle(old(Info()), hasEmit, username, UserInfoCmd(p, pos));
        Info() == r.info && emitted == old(emitted) + r.emitted && threw == r.threw
    {
      pid := p;
      threw := Emit(UserPid(username, p));
      if threw {
        return;
      }
      threw := UpdatePos(pos);
    }

    /** `onPlayerPos`: `updatePos` for the record's own id only. */
    method OnPlayerPos(p: Number, pos: Position) returns (threw: bool)
      modifies this`x, this`y, this`z, this`rx, this`ry, this`emitted
      ensures var r := Handle(old(Info()), hasEmit, username, PlayerPos(p, pos));
        Info() == r.info && emitted == old(emitted) + r.emitted && threw == r.threw
    {
      threw := false;
      if p == pid {
        threw := UpdatePos(pos);
      }
    }

    /** `onPlayerNick`: the record's own id only takes the name, which is emitted. */
    method OnPlayerNick(p: Number, newName: string) returns (threw: bool)
      modifies this`name, this`emitted
      ensures var r := Handle(old(Info()), hasEmit, username, PlayerNick(p, newName));
        Info() == r.info && emitted == old(emitted) + r.emitted && threw == r.threw
    {
      threw := false;
      if p == pid {
        name := newName;
        threw := Emit(UserName(username, newName, p));
      }
    }

    /** The connection emits `e`: the listener registered for its code runs, if any. */
    method Listen(e: Event) returns (threw: bool)
      modifies this`pid, this`name, this`x, this`y, this`z, this`rx, this`ry, this`emitted
      ensures Info() == Apply(old(Info()), hasEmit, username, e)
      ensures Listened(e).None? ==> emitted == old(emitted) && !threw
      ensures Listened(e).Some? ==>
        var r := Handle(old(Info()), hasEmit, username, Listened(e).value);
        emitted == old(emitted) + r.emitted && threw == r.threw
    {
      match Listened(e)
      case None =>
        threw := false;
      case Some(UserInfoCmd(p, pos)) =>
        threw := OnUserInfo(p, pos);
      case Some(PlayerPos(p, pos)) =>
        threw := OnPlayerPos(p, pos);
      case Some(PlayerNick(p, n)) =>
        threw := OnPlayerNick(p, n);
    }
  }

  /**
   * On the object `connection.open` returns, which has no `emit`, a `U`
   * command sets the id and then throws: the position is never taken and
   * nothing is emitted.
   */
  lemma OpenedUserInfoLost()
    ensures var r := Handle(INITIAL, false, "me", UserInfoCmd(7.0, Position(1.0, 2.0, 3.0, 4.0, 5.0)));
      r.threw && r.emitted == [] && r.info == UserInfo(7.0, "", Position(0.0, 0.0, 0.0, 0.0, 0.0))
  {
  }

  /** With an `emit`, a `U` command takes the id and the whole position and emits `user/pid` then `user/position`. */
  lemma UserInfoApplied(info: UserInfo, username: string, p: Number, pos: Position)
    ensures var r := Handle(info, true, username, UserInfoCmd(p, pos));
      && !r.threw && r.info == UserInfo(p, info.name, pos)
      && r.emitted == [UserPid(username, p), UserPosition(info.name, pos)]
  {
  }
}
