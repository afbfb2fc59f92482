/**
 * SampleApp: the peer tracker of the sample application.  It keeps three
 * tables, changed in place by its handlers: the registered users with their
 * passwords, the peers that announced their address, and the chat channels
 * with their members.
 *
 * A handler receives the request body already decoded: either an object
 * whose fields are strings, or the error the decoder raised.  A field that
 * is absent (or null) is None.  Channel names and members are kept as
 * `Name`, which may be None, because joining a channel checks neither.
 */
module SampleApp {
  import opened Text

  type Name = Option<string>

  /** The decoded body of a request. */
  datatype Json = Object(fields: map<string, string>) | Invalid(error: string)

  /** {'ip': ip, 'port': port} */
  datatype Peer = Peer(ip: string, port: string)

  /** The dict a handler returns. */
  datatype Reply =
    | Message(status: int, message: string)
    | PeerList(status: int, channel: string, peers: map<string, Peer>)
    | ChannelList(status: int, channels: map<Name, seq<string>>)

  const GENERAL: Name := Some("general")

  /** data.get(key) */
  function Field(data: map<string, string>, key: string): Name {
    if key in data then Some(data[key]) else None
  }

  /** The truth value of a field: present and not empty. */
  predicate Truthy(n: Name) {
    n.Some? && n.value != ""
  }

  /** How an f-string writes a field. */
  function Show(n: Name): string {
    if n.Some? then n.value else "None"
  }

  /** Who logs in: a registered user giving that user's password. */
  predicate Authenticates(users: map<string, string>, u: Name, p: Name) {
    u.Some? && p.Some? && u.value in users && users[u.value] == p.value
  }

  /** The peers among members that announced an address, with that address. */
  function OnlineIn(members: set<Name>, online: map<string, Peer>): (r: map<string, Peer>)
    ensures forall u :: u in r <==> Some(u) in members && u in online
    ensures forall u :: u in r ==> r[u] == online[u]
  {
    map u | u in online && Some(u) in members :: online[u]
  }

  /** A list of the online members of a channel: each once, and no one else. */
  ghost predicate ListsOnline(list: seq<string>, members: set<Name>, online: map<string, Peer>) {
    (forall u :: u in list <==> Some(u) in members && u in online)
    && (forall i, j :: 0 <= i < j < |list| ==> list[i] != list[j])
  }

  /** The channels after u joined c: created when absent. */
  function Joined(channels: map<Name, set<Name>>, c: Name, u: Name): map<Name, set<Name>> {
    channels[c := (if c in channels then channels[c] else {}) + {u}]
  }

  /** The channels after u, a member of c, left it: an emptied channel is deleted. */
  function Left(channels: map<Name, set<Name>>, c: Name, u: Name): map<Name, set<Name>>
    requires c in channels
  {
    var rest := channels[c] - {u};
    if rest == {} then channels - {c} else channels[c := rest]
  }

  /** The channels after u logged out: removed from each, none deleted. */
  function LoggedOut(channels: map<Name, set<Name>>, u: Name): map<Name, set<Name>> {
    map c | c in channels :: channels[c] - {u}
  }

  // ---------------------------------------------------------------------
  // Properties of the tables

  /** Joining twice is joining once. */
  lemma JoinIdempotent(channels: map<Name, set<Name>>, c: Name, u: Name)
    ensures Joined(Joined(channels, c, u), c, u) == Joined(channels, c, u)
  {
    var once := Joined(channels, c, u);
    assert once[c] + {u} == once[c];
  }

  /** Joining adds u to c only: every other channel keeps its members. */
  lemma JoinOnlyTouchesChannel(channels: map<Name, set<Name>>, c: Name, u: Name, d: Name)
    requires d != c
    ensures d in Joined(channels, c, u) <==> d in channels
    ensures d in channels ==> Joined(channels, c, u)[d] == channels[d]
    ensures c in Joined(channels, c, u) && u in Joined(channels, c, u)[c]
  {
  }

  /** Leaving keeps a channel exactly when someone else is still in it; no other channel changes. */
  lemma LeaveDeletesEmptied(channels: map<Name, set<Name>>, c: Name, u: Name, d: Name)
    requires c in channels && u in channels[c]
    ensures c in Left(channels, c, u) <==> exists v :: v in channels[c] && v != u
    ensures c in Left(channels, c, u) ==> u !in Left(channels, c, u)[c]
    ensures d != c ==> (d in Left(channels, c, u) <==> d in channels)
    ensures d != c && d in channels ==> Left(channels, c, u)[d] == channels[d]
  {
    var rest := channels[c] - {u};
    if exists v :: v in channels[c] && v != u {
      var v :| v in channels[c] && v != u;
      assert v in rest;
    }
  }

  /** A logout leaves every channel in place, without u, and with everyone else who was there. */
  lemma LogoutRemovesEverywhere(channels: map<Name, set<Name>>, u: Name, c: Name, v: Name)
    ensures c in LoggedOut(channels, u) <==> c in channels
    ensures c in channels ==> u !in LoggedOut(channels, u)[c]
    ensures c in channels && v != u ==> (v in LoggedOut(channels, u)[c] <==> v in channels[c])
  {
  }

  /** A user who registered logs in with the password given. */
  lemma RegisteredUserLogsIn(users: map<string, string>, u: string, p: string)
    ensures Authenticates(users[u := p], Some(u), Some(p))
    ensures forall v :: v in users && v != u ==> (users[u := p])[v] == users[v]
  {
  }

  // ---------------------------------------------------------------------
  // The tracker

  class Tracker {
    /** USERS: username -> password */
    var users: map<string, string>
    /** ONLINE_PEERS: username -> address */
    var onlinePeers: map<string, Peer>
    /** CHANNELS: name -> members */
    var channels: map<Name, set<Name>>

    /** Registered users and announced peers have non-empty names and values. */
    predicate Valid()
      reads this
    {
      (forall u :: u in users ==> u != "" && users[u] != "")
      && (forall u :: u in onlinePeers ==> u != "" && onlinePeers[u].ip != "" && onlinePeers[u].port != "")
    }

    constructor()
      ensures Valid()
      ensures users == map[] && onlinePeers == map[] && channels == map[GENERAL := {}]
    {
      users := map[];
      onlinePeers := map[];
      channels := map[GENERAL := {}];
    }

    /** POST /register: a new user with a password; the table changes only on success. */
    method Register(body: Json) returns (r: Reply)
      requires Valid()
      modifies this`users
      ensures Valid()
      ensures r.Message?
      ensures body.Invalid? ==> r == Message(400, body.error) && users == old(users)
      ensures body.Object? ==>
        var u := Field(body.fields, "username");
        var p := Field(body.fields, "password");
        if !Truthy(u) || !Truthy(p) then r == Message(400, "Username and password are required") && users == old(users)
        else if u.value in old(users) then r == Message(400, "Username already exists") && users == old(users)
        else r == Message(200, "User registered successfully") && users == old(users)[u.value := p.value]
    {
      if body.Invalid? {
        return Message(400, body.error);
      }
      var u := Field(body.fields, "username");
      var p := Field(body.fields, "password");
      if !Truthy(u) || !Truthy(p) {
        return Message(400, "Username and password are required");
      }
      if u.value in users {
        return Message(400, "Username already exists");
      }
      users := users[u.value := p.value];
      r := Message(200, "User registered successfully");
    }

    /**
     * What the table's invariant buys login: a missing or empty username or
     * password never matches, since register only stores non-empty ones.
     */
    lemma BlankNeverAuthenticates(u: Name, p: Name)
      requires Valid()
      requires !Truthy(u) || !Truthy(p)
      ensures !Authenticates(users, u, p)
    {
    }

    /** POST /login: 200 exactly for a registered user with that user's password, else 401; nothing changes. */
    method Login(body: Json) returns (r: Reply)
      ensures body.Invalid? ==> r == Message(400, body.error)
      ensures body.Object? ==>
        if Authenticates(users, Field(body.fields, "username"), Field(body.fields, "password"))
        then r == Message(200, "Login successful")
        else r == Message(401, "Invalid credentials")
    {
      if body.Invalid? {
        return Message(400, body.error);
      }
      var u := Field(body.fields, "username");
      var p := Field(body.fields, "password");
      if u.Some? && u.value in users && p.Some? && users[u.value] == p.value {
        r := Message(200, "Login successful");
      } else {
        r := Message(401, "Invalid credentials");
      }
    }

    /**
     * POST /submit-info: records the peer's address and adds it to general,
     * if general still exists (otherwise the add goes to a throwaway set).
     */
    method SubmitInfo(body: Json) returns (r: Reply)
      requires Valid()
      modifies this`onlinePeers, this`channels
      ensures Valid()
      ensures body.Invalid? ==> r == Message(400, body.error) && onlinePeers == old(onlinePeers) && channels == old(channels)
      ensures body.Object? ==>
        var u := Field(body.fields, "username");
        var ip := Field(body.fields, "ip");
        var port := Field(body.fields, "port");
        if !Truthy(u) || !Truthy(ip) || !Truthy(port) then
          r == Message(400, "Missing data") && onlinePeers == old(onlinePeers) && channels == old(channels)
        else
          (r == Message(200, "Info submitted")
          && onlinePeers == old(onlinePeers)[u.value := Peer(ip.value, port.value)]
          && channels == if GENERAL in old(channels) then old(channels)[GENERAL := old(channels)[GENERAL] + {u}] else old(channels))
    {
      if body.Invalid? {
        return Message(400, body.error);
      }
      var u := Field(body.fields, "username");
      var ip := Field(body.fields, "ip");
      var port := Field(body.fields, "port");
      if !Truthy(u) || !Truthy(ip) || !Truthy(port) {
        return Message(400, "Missing data");
      }
      onlinePeers := onlinePeers[u.value := Peer(ip.value, port.value)];
      if GENERAL in channels {
        channels := channels[GENERAL := channels[GENERAL] + {u}];
      }
      r := Message(200, "Info submitted");
    }

    /** GET /get-list: the online members of general. */
    method GetList() returns (r: Reply)
      ensures r == PeerList(200, "general", OnlineIn(if GENERAL in channels then channels[GENERAL] else {}, onlinePeers))
    {
      var general := if GENERAL in channels then channels[GENERAL] else {};
      r := PeerList(200, "general", OnlineIn(general, onlinePeers));
    }

    /** GET /get-channels: every channel, with a list of its online members. */
    method GetChannels() returns (r: Reply)
      ensures r.ChannelList? && r.status == 200
      ensures r.channels.Keys == channels.Keys
      ensures forall c :: c in r.channels ==> ListsOnline(r.channels[c], channels[c], onlinePeers)
    {
      var all: map<Name, seq<string>> := map[];
      var todo := channels.Keys;
      while todo != {}
        invariant todo <= channels.Keys
        invariant all.Keys == channels.Keys - todo
        invariant forall c :: c in all ==> ListsOnline(all[c], channels[c], onlinePeers)
        decreases todo
      {
        var c :| c in todo;
        var list := OnlineMembers(channels[c], onlinePeers);
        all := all[c := list];
        todo := todo - {c};
      }
      r := ChannelList(200, all);
    }

    /** POST /join-channel: creates the channel if absent and adds the user; neither is checked. */
    method JoinChannel(body: Json) returns (r: Reply)
      modifies this`channels
      ensures body.Invalid? ==> r == Message(400, body.error) && channels == old(channels)
      ensures body.Object? ==>
        var c := Field(body.fields, "channel");
        r == Message(200, "Joined " + Show(c)) && channels == Joined(old(channels), c, Field(body.fields, "username"))
    {
      if body.Invalid? {
        return Message(400, body.error);
      }
      var u := Field(body.fields, "username");
      var c := Field(body.fields, "channel");
      if c !in channels {
        channels := channels[c := {}];
      }
      channels := channels[c := channels[c] + {u}];
      r := Message(200, "Joined " + Show(c));
    }

    /** POST /get-channel-peers: the online members of a channel, to a member of it. */
    method GetChannelPeers(body: Json) returns (r: Reply)
      ensures body.Invalid? ==> r == Message(500, body.error)
      ensures body.Object? ==>
        var c := Field(body.fields, "channel");
        var u := Field(body.fields, "username");
        if !Truthy(c) || !Truthy(u) then r == Message(400, "Channel name required")
        else if c !in channels then r == Message(404, "Channel not found")
        else if u !in channels[c] then r == Message(403, "Forbidden. You are not a member of this channel.")
        else r == PeerList(200, c.value, OnlineIn(channels[c], onlinePeers))
    {
      if body.Invalid? {
        return Message(500, body.error);
      }
      var c := Field(body.fields, "channel");
      var u := Field(body.fields, "username");
      if !Truthy(c) || !Truthy(u) {
        return Message(400, "Channel name required");
      }
      if c !in channels {
        return Message(404, "Channel not found");
      }
      var members := channels[c];
      if u !in members {
        return Message(403, "Forbidden. You are not a member of this channel.");
      }
      r := PeerList(200, c.value, OnlineIn(members, onlinePeers));
    }

    /** POST /leave-channel: removes a member, deleting the channel it empties; 404 and no change otherwise. */
    method LeaveChannel(body: Json) returns (r: Reply)
      modifies this`channels
      ensures body.Invalid? ==> r == Message(400, body.error) && channels == old(channels)
      ensures body.Object? ==>
        var u := Field(body.fields, "username");
        var c := Field(body.fields, "channel");
        if !Truthy(u) || !Truthy(c) then r == Message(400, "Username and channel are required") && channels == old(channels)
        else if c in old(channels) && u in old(channels)[c] then
          r == Message(200, "Successfully left " + c.value) && channels == Left(old(channels), c, u)
        else r == Message(404, "Channel or user not found in that channel") && channels == old(channels)
    {
      if body.Invalid? {
        return Message(400, body.error);
      }
      var u := Field(body.fields, "username");
      var c := Field(body.fields, "channel");
      if !Truthy(u) || !Truthy(c) {
        return Message(400, "Username and channel are required");
      }
      if c in channels && u in channels[c] {
        channels := channels[c := channels[c] - {u}];
        if channels[c] == {} {
          channels := channels - {c};
        }
        r := Message(200, "Successfully left " + c.value);
      } else {
        r := Message(404, "Channel or user not found in that channel");
      }
    }

    /** POST /logout: the user is no longer online nor in any channel; channels stay. */
    method Logout(body: Json) returns (r: Reply)
      requires Valid()
      modifies this`onlinePeers, this`channels
      ensures Valid()
      ensures body.Invalid? ==> r == Message(400, body.error) && onlinePeers == old(onlinePeers) && channels == old(channels)
      ensures body.Object? ==>
        var u := Field(body.fields, "username");
        if !Truthy(u) then r == Message(400, "Username is required") && onlinePeers == old(onlinePeers) && channels == old(channels)
        else (r == Message(200, "Logout successful")
          && onlinePeers == old(onlinePeers) - {u.value}
          && channels == LoggedOut(old(channels), u))
    {
      if body.Invalid? {
        return Message(400, body.error);
      }
      var u := Field(body.fields, "username");
      if !Truthy(u) {
        return Message(400, "Username is required");
      }
      if u.value in onlinePeers {
        onlinePeers := onlinePeers - {u.value};
      }
      assert onlinePeers == old(onlinePeers) - {u.value};
      var todo := channels.Keys;
      ghost var before := channels;
      while todo != {}
        invariant onlinePeers == old(onlinePeers) - {u.value}
        invariant todo <= channels.Keys && channels.Keys == before.Keys
        invariant forall c :: c in channels ==> channels[c] == if c in todo then before[c] else before[c] - {u}
        decreases todo
      {
        var c :| c in todo;
        if u in channels[c] {
          channels := channels[c := channels[c] - {u}];
        }
        todo := todo - {c};
      }
      r := Message(200, "Logout successful");
    }
  }

  /** The inner loop of get_channels: the members of one channel that are online. */
  method OnlineMembers(members: set<Name>, online: map<string, Peer>) returns (list: seq<string>)
    ensures ListsOnline(list, members, online)
  {
    list := [];
    var todo := members;
    while todo != {}
      invariant todo <= members
      invariant forall u :: u in list <==> Some(u) in members - todo && u in online
      invariant forall i, j :: 0 <= i < j < |list| ==> list[i] != list[j]
      decreases todo
    {
      var m :| m in todo;
      if m.Some? && m.value in online {
        list := list + [m.value];
      }
      todo := todo - {m};
    }
  }
}
