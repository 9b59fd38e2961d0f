/** Sessions: the in-memory store of all sessions, and the per-request cache of one session in front of it. */
module Sessions {
  import opened Options

  type Contents = map<string, map<string, string>>

  const SESSION_ID_LEN := 32

  function Lookup(c: Contents, sid: string, key: string): Option<string> {
    if sid in c && key in c[sid] then Some(c[sid][key]) else None
  }

  // ------------------------------------------------------------------ the store

  function Stored(c: Contents, sid: string, key: string, val: string): Contents {
    c[sid := (if sid in c then c[sid] else map[])[key := val]]
  }

  /** A session that becomes empty is dropped. */
  function Removed(c: Contents, sid: string, key: string): Contents {
    if sid !in c then c
    else if c[sid] - {key} == map[] then c - {sid}
    else c[sid := c[sid] - {key}]
  }

  /** What clearing does to the contents. */
  function Cleared(c: Contents, sid: string): Contents {
    if sid in c then c[sid := c[sid] - {sid}] else c
  }

  /** Storing and removing change one entry. */
  lemma OneEntryChanges(c: Contents, sid: string, key: string, val: string, s: string, k: string)
    ensures Lookup(Stored(c, sid, key, val), s, k) == if s == sid && k == key then Some(val) else Lookup(c, s, k)
    ensures Lookup(Removed(c, sid, key), s, k) == if s == sid && k == key then None else Lookup(c, s, k)
  {
    if sid in c && k in c[sid] {
      assert k in c[sid] - {key} <==> k != key;
    }
  }

  class MemoryStore {
    var sessions: Contents

    constructor ()
      ensures sessions == map[]
    {
      sessions := map[];
    }

    method Get(sid: string, key: string) returns (r: Option<string>)
      ensures r == Lookup(sessions, sid, key)
    {
      if sid in sessions {
        var m := sessions[sid];
        if key in m {
          return Some(m[key]);
        }
      }
      return None;
    }

    method Put(sid: string, key: string, val: string)
      modifies this
      ensures sessions == Stored(old(sessions), sid, key, val)
      ensures forall s, k ::
        Lookup(sessions, s, k) == if s == sid && k == key then Some(val) else old(Lookup(sessions, s, k))
    {
      var m := if sid in sessions then sessions[sid] else map[];
      sessions := sessions[sid := m[key := val]];
    }

    /** A session that becomes empty is dropped. */
    method Del(sid: string, key: string)
      modifies this
      ensures sessions == Removed(old(sessions), sid, key)
      ensures forall s, k ::
        Lookup(sessions, s, k) == if s == sid && k == key then None else old(Lookup(sessions, s, k))
      ensures sid in sessions ==> sessions[sid] != map[]
    {
      if sid in sessions {
        var m := sessions[sid] - {key};
        forall s, k
          ensures Lookup(Removed(sessions, sid, key), s, k) ==
            if s == sid && k == key then None else Lookup(sessions, s, k)
        {
          OneEntryChanges(sessions, sid, key, "", s, k);
        }
        if m == map[] {
          sessions := sessions - {sid};
        } else {
          sessions := sessions[sid := m];
        }
      }
    }

    /** Clearing removes from the session the key that equals the session's own id, and nothing else. */
    method Clear(sid: string)
      modifies this
      ensures sessions == Cleared(old(sessions), sid)
      ensures forall s, k ::
        Lookup(sessions, s, k) == if s == sid && k == sid then None else old(Lookup(sessions, s, k))
    {
      if sid in sessions {
        sessions := sessions[sid := sessions[sid] - {sid}];
      }
    }
  }

  /** Clearing a session leaves nothing of it if and only if it holds no key but its own id. */
  lemma ClearedIff(c: Contents, sid: string)
    ensures (forall k :: Lookup(Cleared(c, sid), sid, k) == None) <==>
      (forall k :: k != sid ==> Lookup(c, sid, k) == None)
  {
    forall k
      ensures Lookup(Cleared(c, sid), sid, k) == if k == sid then None else Lookup(c, sid, k)
    {
    }
  }

  // ------------------------------------------------------------------ a request without a cache

  /** Calls of one request. A new session id comes from outside, and so does whether the store accepts a value. */
  datatype Op =
    | Get(key: string)
    | Put(key: string, data: Option<string>, newId: Option<string>, accepted: bool)
    | Del(key: string)
    | Clear
    | SetId(id: string)

  datatype Answer = Found(value: Option<string>) | Took(ok: bool) | Silent

  /** The store and the current session of a request; no session is current while the id is empty. */
  datatype Request = Request(contents: Contents, sid: string)

  function IdFor(p: Request, newId: Option<string>): string {
    if p.sid != "" then p.sid else if newId.Some? then newId.value else ""
  }

  function Forgets(p: Request, key: string): Request {
    if p.sid == "" then p else p.(contents := Removed(p.contents, p.sid, key))
  }

  /** What a call does when every lookup goes to the store. */
  function After(p: Request, op: Op): Request {
    match op
    case Get(_) => p
    case Put(key, data, newId, accepted) =>
      if data.None? then Forgets(p, key)
      else
        var sid := IdFor(p, newId);
        if sid == "" || !accepted then p.(sid := sid)
        else Request(Stored(p.contents, sid, key, data.value), sid)
    case Del(key) => Forgets(p, key)
    case Clear => if p.sid == "" then p else Request(Cleared(p.contents, p.sid), "")
    case SetId(id) => if |id| == SESSION_ID_LEN then p.(sid := id) else p
  }

  function AnswerTo(p: Request, op: Op): Answer {
    match op
    case Get(key) => Found(if p.sid == "" then None else Lookup(p.contents, p.sid, key))
    case Put(_, data, newId, accepted) => Took(data.None? || (IdFor(p, newId) != "" && accepted))
    case Del(_) => Silent
    case Clear => Silent
    case SetId(id) => Took(|id| == SESSION_ID_LEN)
  }

  /** What an answer tells about the calls that follow. A write that was taken is found by its key in a session
      that is current; one that was not taken changes nothing in the store. A deleted key is not found, and neither
      is any key after the session was given up. An id is set if it has 32 characters, and otherwise nothing happens. */
  lemma AnswerMeans(p: Request, op: Op, key: string)
    ensures op.Put? && op.data.Some? ==>
      && (AnswerTo(p, op) == Took(true) <==>
          op.accepted && (p.sid != "" || (op.newId.Some? && op.newId.value != "")))
      && (AnswerTo(p, op) == Took(true) ==>
          After(p, op).sid != "" && AnswerTo(After(p, op), Get(op.key)) == Found(op.data))
      && (AnswerTo(p, op) != Took(true) ==> AnswerTo(p, op) == Took(false) && After(p, op).contents == p.contents)
    ensures op.Put? && op.data.None? ==>
      AnswerTo(p, op) == Took(true) && AnswerTo(After(p, op), Get(op.key)) == Found(None)
    ensures op.Del? ==> AnswerTo(After(p, op), Get(op.key)) == Found(None)
    ensures op.Clear? ==> AnswerTo(After(p, op), Get(key)) == Found(None)
    ensures op.SetId? ==>
      if |op.id| == 32 then AnswerTo(p, op) == Took(true) && After(p, op) == Request(p.contents, op.id)
      else AnswerTo(p, op) == Took(false) && After(p, op) == p
  {
    if op.Put? {
      OneEntryChanges(p.contents, if op.data.Some? then IdFor(p, op.newId) else p.sid, op.key,
                      if op.data.Some? then op.data.value else "", After(p, op).sid, op.key);
    } else if op.Del? {
      OneEntryChanges(p.contents, p.sid, op.key, "", p.sid, op.key);
    }
  }

  function Exec(p: Request, ops: seq<Op>): Request
    decreases |ops|
  {
    if ops == [] then p else Exec(After(p, ops[0]), ops[1..])
  }

  function Answers(p: Request, ops: seq<Op>): seq<Answer>
    decreases |ops|
  {
    if ops == [] then [] else [AnswerTo(p, ops[0])] + Answers(After(p, ops[0]), ops[1..])
  }

  lemma {:induction false} ExecSnoc(p: Request, ops: seq<Op>, op: Op)
    ensures Exec(p, ops + [op]) == After(Exec(p, ops), op)
    ensures Answers(p, ops + [op]) == Answers(p, ops) + [AnswerTo(Exec(p, ops), op)]
    decreases |ops|
  {
    if ops == [] {
      assert (ops + [op])[1..] == [];
    } else {
      assert (ops + [op])[0] == ops[0] && (ops + [op])[1..] == ops[1..] + [op];
      ExecSnoc(After(p, ops[0]), ops[1..], op);
    }
  }

  /** The value of a key after the calls, by the last call that writes it. */
  function LastWritten(ops: seq<Op>, key: string, before: Option<string>): Option<string>
    decreases |ops|
  {
    if ops == [] then before
    else
      var now := match ops[0]
        case Put(k, data, _, accepted) => if k == key && (data.None? || accepted) then data else before
        case Del(k) => if k == key then None else before
        case _ => before;
      LastWritten(ops[1..], key, now)
  }

  predicate StaysIn(ops: seq<Op>) {
    forall op :: op in ops ==> !op.Clear? && !op.SetId?
  }

  /** Within one session, the last write of a key wins. */
  lemma {:induction false} LastWriteWins(p: Request, ops: seq<Op>, key: string)
    requires p.sid != "" && StaysIn(ops)
    ensures Exec(p, ops).sid == p.sid
    ensures Lookup(Exec(p, ops).contents, p.sid, key) == LastWritten(ops, key, Lookup(p.contents, p.sid, key))
    decreases |ops|
  {
    if ops != [] {
      var op := ops[0];
      assert op in ops;
      match op {
        case Put(k, data, _, _) =>
          OneEntryChanges(p.contents, p.sid, k, if data.Some? then data.value else "", p.sid, key);
        case Del(k) => OneEntryChanges(p.contents, p.sid, k, "", p.sid, key);
        case Get(_) =>
      }
      LastWriteWins(After(p, op), ops[1..], key);
    }
  }

  /** The calls never make a session current. */
  predicate Avoids(ops: seq<Op>, s: string) {
    forall op :: op in ops ==> !(op.SetId? && op.id == s) && !(op.Put? && op.newId == Some(s))
  }

  /** A request does not touch the sessions that are not its own. */
  lemma {:induction false} OtherSessionsKept(p: Request, ops: seq<Op>, s: string, k: string)
    requires s != "" && p.sid != s && Avoids(ops, s)
    ensures Lookup(Exec(p, ops).contents, s, k) == Lookup(p.contents, s, k)
    decreases |ops|
  {
    if ops != [] {
      var op := ops[0];
      assert op in ops;
      match op {
        case Put(key, data, newId, _) =>
          OneEntryChanges(p.contents, if data.Some? then IdFor(p, newId) else p.sid, key,
                          if data.Some? then data.value else "", s, k);
        case Del(key) => OneEntryChanges(p.contents, p.sid, key, "", s, k);
        case Get(_) =>
        case Clear =>
        case SetId(_) =>
      }
      OtherSessionsKept(After(p, op), ops[1..], s, k);
    }
  }

  // ------------------------------------------------------------------ the cache of a request

  class Session {
    const store: MemoryStore
    var sid: string
    var cache: map<string, string>

    ghost function View(): Request
      reads this, store
    {
      Request(store.sessions, sid)
    }

    /** Every cached entry is what the store holds for the current session. */
    ghost predicate Coherent()
      reads this, store
    {
      && (sid == "" ==> cache == map[])
      && forall k :: k in cache ==> Lookup(store.sessions, sid, k) == Some(cache[k])
    }

    constructor (store: MemoryStore, sid: string)
      ensures Coherent() && this.store == store && this.sid == sid
    {
      this.store, this.sid, cache := store, sid, map[];
    }

    /** A lookup through the cache agrees with a lookup in the store. */
    method Read(key: string) returns (r: Option<string>)
      requires Coherent()
      modifies this
      ensures Coherent() && sid == old(sid)
      ensures View() == After(old(View()), Get(key)) && Found(r) == AnswerTo(old(View()), Get(key))
      ensures cache == if r.Some? then old(cache)[key := r.value] else old(cache)
    {
      if sid == "" {
        return None;
      }
      if key in cache {
        return Some(cache[key]);
      }
      r := store.Get(sid, key);
      if r.Some? {
        cache := cache[key := r.value];
      }
    }

    method Delete(key: string)
      requires Coherent()
      modifies this, store
      ensures Coherent() && View() == After(old(View()), Op.Del(key)) && cache == old(cache) - {key}
    {
      if sid != "" {
        cache := cache - {key};
        store.Del(sid, key);
      }
    }

    /** A put without data is a delete. Otherwise the cached entry is dropped, and the next lookup will fetch
        the new value; a session id is made up if there is none. */
    method Write(key: string, data: Option<string>, newId: Option<string>, accepted: bool) returns (ok: bool)
      requires Coherent() && (newId.Some? ==> newId.value != "")
      modifies this, store
      ensures Coherent() && cache == old(cache) - {key}
      ensures View() == After(old(View()), Op.Put(key, data, newId, accepted))
      ensures Took(ok) == AnswerTo(old(View()), Op.Put(key, data, newId, accepted))
    {
      if data.None? {
        Delete(key);
        return true;
      }
      if sid == "" {
        if newId.None? {
          return false;
        }
        sid := newId.value;
      }
      cache := cache - {key};
      if accepted {
        store.Put(sid, key, data.value);
      }
      return accepted;
    }

    /** The request forgets its session; the store keeps all entries of it but one under its own id. */
    method Forget()
      requires Coherent()
      modifies this, store
      ensures Coherent() && sid == "" && cache == map[] && View() == After(old(View()), Op.Clear)
    {
      if sid != "" {
        store.Clear(sid);
        sid := "";
        cache := map[];
      }
    }

    method SetSessionId(id: string) returns (ok: bool)
      requires Coherent()
      modifies this
      ensures Coherent() && (ok <==> |id| == SESSION_ID_LEN)
      ensures if ok then sid == id && cache == map[] else sid == old(sid) && cache == old(cache)
    {
      if |id| != SESSION_ID_LEN {
        return false;
      }
      sid, cache := id, map[];
      return true;
    }

    method Call(op: Op) returns (a: Answer)
      requires Coherent() && (op.Put? && op.newId.Some? ==> op.newId.value != "")
      modifies this, store
      ensures Coherent() && View() == After(old(View()), op) && a == AnswerTo(old(View()), op)
    {
      a := Silent;
      match op {
        case Get(k) =>
          var r := Read(k);
          a := Found(r);
        case Put(k, data, newId, accepted) =>
          var ok := Write(k, data, newId, accepted);
          a := Took(ok);
        case Del(k) => Delete(k);
        case Clear => Forget();
        case SetId(id) =>
          var ok := SetSessionId(id);
          a := Took(ok);
      }
    }

    /** Every sequence of calls by the session's only writer is answered, and changes the store, as without a
        cache. */
    method Run(ops: seq<Op>) returns (answers: seq<Answer>)
      requires Coherent() && forall op :: op in ops && op.Put? && op.newId.Some? ==> op.newId.value != ""
      modifies this, store
      ensures Coherent() && View() == Exec(old(View()), ops) && answers == Answers(old(View()), ops)
    {
      answers := [];
      for i := 0 to |ops|
        invariant Coherent() && View() == Exec(old(View()), ops[..i]) && answers == Answers(old(View()), ops[..i])
      {
        assert ops[i] in ops;
        var a := Call(ops[i]);
        answers := answers + [a];
        ExecSnoc(old(View()), ops[..i], ops[i]);
        assert ops[..i + 1] == ops[..i] + [ops[i]];
      }
      assert ops[..|ops|] == ops;
    }

    /** Another writer of the store leaves the cache coherent if and only if it does not give a different
        value to a key of this session that is cached. */
    method WrittenElsewhere(s: string, key: string, val: string)
      requires Coherent()
      modifies store
      ensures Coherent() <==> !(s == sid && key in cache && cache[key] != val)
      ensures Lookup(store.sessions, s, key) == Some(val)
    {
      store.Put(s, key, val);
      if s == sid && key in cache && cache[key] != val {
        assert Lookup(store.sessions, sid, key) != Some(cache[key]);
      }
    }
  }

  /** After a clear, a request that takes up the same session id again still finds its entries. */
  method ClearedSessionComesBack(store: MemoryStore, id: string, key: string, val: string) returns (r: Option<string>)
    requires |id| == SESSION_ID_LEN && key != id
    modifies store
    ensures r == Some(val)
  {
    var session := new Session(store, id);
    var ok := session.Write(key, Some(val), None, true);
    session.Forget();
    ok := session.SetSessionId(id);
    r := session.Read(key);
  }
}
