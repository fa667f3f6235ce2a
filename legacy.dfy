/** The older in-memory relay of app.py: `pending_verifications`, `verified_users`
    and `active_connections` are plain dictionaries, and its websocket takes the
    whole first frame as the token. */
module Legacy {
  import opened Bytes
  import opened Wrappers
  import opened Text
  import opened Codec
  import opened Relay

  /** The value stored in `verified_users`: `{"uuid": …, "username": …}`. */
  datatype UserInfo = UserInfo(uuid: Uuid, username: string)

  /** The lifecycle of one legacy websocket. */
  datatype Link = Authed(user: Uuid) | Refused(code: int) | Gone

  /** No username is stored under two tokens, so the token `verify` finds for a
      username does not depend on the order it looks in. */
  ghost predicate NamesUnique(verified: map<seq<byte>, UserInfo>) {
    forall t1, t2 :: t1 in verified && t2 in verified && verified[t1].username == verified[t2].username ==> t1 == t2
  }

  /** `active_connections` only names connections authenticated as the identity they
      are filed under. */
  ghost predicate LinksOk(registry: map<Uuid, ConnId>, links: map<ConnId, Link>) {
    forall u :: u in registry ==> registry[u] in links && links[registry[u]] == Authed(u)
  }

  /** The `for` loop of `verify`: the token of an entry whose username is `name`, if any. */
  method FindByName(verified: map<seq<byte>, UserInfo>, name: string) returns (token: Option<seq<byte>>)
    ensures token.Some? ==> token.value in verified && verified[token.value].username == name
    ensures token.None? ==> forall t :: t in verified ==> verified[t].username != name
  {
    var keys := verified.Keys;
    while keys != {}
      invariant keys <= verified.Keys
      invariant forall t :: t in verified && t !in keys ==> verified[t].username != name
      decreases keys
    {
      var t :| t in keys;
      if verified[t].username == name {
        return Some(t);
      }
      keys := keys - {t};
    }
    return None;
  }

  /** A token as the client stores it (not empty, no NUL, no whitespace at its ends)
      survives the legacy cleaning as it is, and so does the same token behind the
      newer protocol's TOKEN tag byte: the tag is a NUL, which the cleaning removes. */
  lemma LegacyReadsToken(t: seq<byte>)
    requires t != [] && 0 !in t && !IsSpace(t[0]) && !IsSpace(t[|t| - 1])
    ensures CleanToken(t) == t
    ensures CleanToken(EncodeClient(TokenMsg(t))) == t
  {
    StripKeepsClean(t);
    RemoveAllAbsent(t, 0);
    var tagged := [TOKEN] + t;
    assert tagged[|tagged| - 1] == t[|t| - 1];
    StripKeepsClean(tagged);
    assert tagged[1..] == t;
  }

  class LegacyRelay {
    var pending: map<string, string>            // pending_verifications
    var verified: map<seq<byte>, UserInfo>      // verified_users
    var registry: map<Uuid, ConnId>             // active_connections
    var links: map<ConnId, Link>
    var outbox: map<ConnId, seq<Packet>>

    ghost predicate Valid()
      reads this
    {
      && NamesUnique(verified)
      && links.Keys == outbox.Keys
      && LinksOk(registry, links)
    }

    constructor ()
      ensures Valid()
      ensures pending == map[] && verified == map[] && registry == map[] && links == map[] && outbox == map[]
    {
      pending, verified, registry, links, outbox := map[], map[], map[], map[], map[];
    }

    /** `get_auth_id`: `freshId` is recorded for `username`, overwriting the entry
        of the same id if there was one; nothing else changes. */
    method GetAuthId(username: string, freshId: string) returns (id: string)
      requires Valid()
      modifies this`pending
      ensures Valid()
      ensures id == freshId && pending == old(pending)[freshId := username]
    {
      pending := pending[freshId := username];
      id := freshId;
    }

    /** `verify`. An unknown id, or one recorded for an empty username, gives 400. A
        username already verified gets its existing token back, and neither dictionary
        changes (the pending id stays). Otherwise the identity service's answer
        (`mojang`, `None` for a refusal: 403) is stored under `freshToken` with the
        username, and the pending id is removed. */
    method Verify(id: string, freshToken: seq<byte>, mojang: Option<Uuid>) returns (status: int, token: seq<byte>)
      requires Valid()
      modifies this`pending, this`verified
      ensures Valid()
      ensures id !in old(pending) || old(pending)[id] == "" ==>
        status == 400 && pending == old(pending) && verified == old(verified)
      ensures id in old(pending) && old(pending)[id] != "" ==>
        var name := old(pending)[id];
        if exists t :: t in old(verified) && old(verified)[t].username == name then
          && status == 200 && token in verified && verified[token].username == name
          && pending == old(pending) && verified == old(verified)
        else if mojang.None? then
          status == 403 && pending == old(pending) && verified == old(verified)
        else
          && status == 200 && token == freshToken
          && verified == old(verified)[freshToken := UserInfo(mojang.value, name)]
          && pending == old(pending) - {id}
    {
      if id !in pending || pending[id] == "" {
        return 400, [];
      }
      var name := pending[id];
      var existing := FindByName(verified, name);
      if existing.Some? {
        return 200, existing.value;
      }
      if mojang.None? {
        return 403, [];
      }
      verified := verified[freshToken := UserInfo(mojang.value, name)];
      pending := pending - {id};
      return 200, freshToken;
    }

    /** The legacy `websocket_endpoint` handshake: the cleaned first frame is looked
        up in `verified_users`. An unknown token closes the connection with 3000 and
        registers nothing; a known one files the connection under the user's identity,
        replacing any earlier one, and sends a single zero byte. */
    method Handshake(conn: ConnId, first: seq<byte>) returns (ok: bool)
      requires Valid() && conn !in links
      modifies this`registry, this`links, this`outbox
      ensures Valid()
      ensures ok <==> CleanToken(first) in verified
      ensures ok ==> var u := verified[CleanToken(first)].uuid;
        && registry == old(registry)[u := conn]
        && links == old(links)[conn := Authed(u)]
        && outbox == old(outbox)[conn := [[0]]]
      ensures !ok ==>
        && registry == old(registry)
        && links == old(links)[conn := Refused(AUTH_FAILURE)]
        && outbox == old(outbox)[conn := []]
    {
      var token := CleanToken(first);
      if token !in verified {
        links := links[conn := Refused(AUTH_FAILURE)];
        outbox := outbox[conn := []];
        return false;
      }
      var u := verified[token].uuid;
      registry := registry[u := conn];
      links := links[conn := Authed(u)];
      outbox := outbox[conn := [[0]]];
      ok := true;
    }

    /** The receive loop ending on a disconnect or any error: the identity's entry is
        popped from `active_connections` whichever connection it points to. */
    method Disconnect(conn: ConnId)
      requires Valid() && conn in links && links[conn].Authed?
      modifies this`registry, this`links
      ensures Valid()
      ensures registry == old(registry) - {old(links[conn]).user}
      ensures links == old(links)[conn := Gone]
    {
      registry := registry - {links[conn].user};
      links := links[conn := Gone];
    }
  }
}
