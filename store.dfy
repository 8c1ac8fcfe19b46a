/**
 * The Redis store the proxy reads and writes through its pooled connection: GET, SET and EXPIRE on string keys.
 * A value is kept with the time to live (in seconds) EXPIRE recorded for it; time does not pass in the model.
 */
module Stores {
  import opened Wrappers
  import opened Errors

  /** The two write commands the proxy issues. */
  datatype Command = Set(key: string, value: string) | Expire(key: string, seconds: int)

  datatype StoreState = StoreState(entries: map<string, string>, ttl: map<string, int>)

  /** Only a stored key can have a time to live, and a recorded time to live is positive. */
  predicate ValidState(s: StoreState) {
    s.ttl.Keys <= s.entries.Keys && forall k :: k in s.ttl ==> s.ttl[k] > 0
  }

  /** Redis semantics: SET stores the value and discards any time to live of the key; EXPIRE on a stored key
    * records a positive time to live or deletes the key for a non-positive one, and does nothing to an absent key. */
  function Apply(s: StoreState, c: Command): (r: StoreState)
    ensures ValidState(s) ==> ValidState(r)
    ensures forall k :: k != c.key ==> (k in r.entries <==> k in s.entries) && (k in r.ttl <==> k in s.ttl)
    ensures forall k :: k != c.key && k in r.entries ==> r.entries[k] == s.entries[k]
    ensures forall k :: k != c.key && k in r.ttl ==> r.ttl[k] == s.ttl[k]
  {
    match c
    case Set(k, v) => StoreState(s.entries[k := v], s.ttl - {k})
    case Expire(k, secs) =>
      if k !in s.entries then s
      else if secs <= 0 then StoreState(s.entries - {k}, s.ttl - {k})
      else StoreState(s.entries, s.ttl[k := secs])
  }

  /** The keys a sequence of commands writes to. */
  function KeysOf(cmds: seq<Command>): set<string> {
    set i | 0 <= i < |cmds| :: cmds[i].key
  }

  /** The state after issuing `cmds` in order, where command `i` takes effect unless `fails[i]`:
    * a failed write's result is discarded and the next command is still issued. */
  function Writes(s: StoreState, cmds: seq<Command>, fails: seq<bool>): (r: StoreState)
    requires |cmds| == |fails|
    ensures ValidState(s) ==> ValidState(r)
    ensures forall k :: k !in KeysOf(cmds) ==>
      && (k in r.entries <==> k in s.entries) && (k in r.entries ==> r.entries[k] == s.entries[k])
      && (k in r.ttl <==> k in s.ttl) && (k in r.ttl ==> r.ttl[k] == s.ttl[k])
    decreases |cmds|
  {
    if |cmds| == 0 then s
    else
      assert KeysOf(cmds) == {cmds[0].key} + KeysOf(cmds[1..]);
      Writes(Step(s, cmds[0], fails[0]), cmds[1..], fails[1..])
  }

  /** One write: applied unless it fails. */
  function Step(s: StoreState, c: Command, fails: bool): (r: StoreState)
    ensures ValidState(s) ==> ValidState(r)
  {
    if fails then s else Apply(s, c)
  }

  /** A value stored by SET and then given a time to live is there, with that time to live. */
  lemma SetThenExpire(s: StoreState, k: string, v: string, secs: int)
    requires secs > 0
    ensures var r := Apply(Apply(s, Set(k, v)), Expire(k, secs)); k in r.entries && r.entries[k] == v && k in r.ttl && r.ttl[k] == secs
  {
  }

  /** A SET whose following EXPIRE fails leaves the value stored with no time to live: it never expires. */
  lemma ExpireLostKeepsForever(s: StoreState, k: string, v: string, secs: int)
    ensures var r := Writes(s, [Set(k, v), Expire(k, secs)], [false, true]);
      k in r.entries && r.entries[k] == v && k !in r.ttl
  {
    var cmds, fails := [Set(k, v), Expire(k, secs)], [false, true];
    assert Writes(s, cmds[1..][1..], fails[1..][1..]) == s;
    assert Writes(Apply(s, Set(k, v)), cmds[1..], fails[1..]) == Apply(s, Set(k, v));
  }

  /** Writes that all fail leave the store as it was. */
  lemma {:induction false} FailedWritesChangeNothing(s: StoreState, cmds: seq<Command>, fails: seq<bool>)
    requires |cmds| == |fails| && forall i :: 0 <= i < |fails| ==> fails[i]
    ensures Writes(s, cmds, fails) == s
    decreases |cmds|
  {
    if |cmds| > 0 {
      FailedWritesChangeNothing(s, cmds[1..], fails[1..]);
    }
  }

  /** The store behind the connection pool: its entries, their times to live, and every write command sent to it
    * in order, whether or not it took effect. */
  class Store {
    var entries: map<string, string>
    var ttl: map<string, int>
    var log: seq<Command>

    function State(): StoreState
      reads this
    {
      StoreState(entries, ttl)
    }

    predicate Valid()
      reads this
    {
      ValidState(State())
    }

    constructor ()
      ensures Valid() && entries == map[] && ttl == map[] && log == []
    {
      entries, ttl, log := map[], map[], [];
    }

    /** `GET key`: the stored value or None; a failing connection gives an error. */
    method Get(key: string, fails: bool) returns (r: Result<Option<string>, ProxyError>)
      ensures fails ==> r == Failure(StoreRead)
      ensures !fails ==> r.Success? && (r.value.Some? <==> key in entries)
      ensures !fails && key in entries ==> r.value == Some(entries[key])
    {
      if fails {
        return Failure(StoreRead);
      }
      r := Success(if key in entries then Some(entries[key]) else None);
    }

    /** `SET key value`. */
    method Set(key: string, value: string, fails: bool)
      requires Valid()
      modifies this
      ensures Valid()
      ensures log == old(log) + [Command.Set(key, value)]
      ensures State() == if fails then old(State()) else Apply(old(State()), Command.Set(key, value))
    {
      log := log + [Command.Set(key, value)];
      if !fails {
        var s := Apply(State(), Command.Set(key, value));
        entries, ttl := s.entries, s.ttl;
      }
    }

    /** `EXPIRE key seconds`. */
    method Expire(key: string, seconds: int, fails: bool)
      requires Valid()
      modifies this
      ensures Valid()
      ensures log == old(log) + [Command.Expire(key, seconds)]
      ensures State() == if fails then old(State()) else Apply(old(State()), Command.Expire(key, seconds))
    {
      log := log + [Command.Expire(key, seconds)];
      if !fails {
        var s := Apply(State(), Command.Expire(key, seconds));
        entries, ttl := s.entries, s.ttl;
      }
    }
  }
}
