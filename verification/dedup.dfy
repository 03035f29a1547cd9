/** The deduplicator that keeps one process from announcing the same text
    twice: the last accepted text, never forgotten, and a cache of hashes
    of accepted texts, each forgotten `window` milliseconds after it was
    stored. The clock and the hash function are parameters. */
module Dedup {

  /** A cached hash and the time it was stored. */
  datatype Stamp = Stamp(hash: nat, time: int)

  /** The deduplicator's state. */
  datatype Dedup = Dedup(window: int, recent: seq<Stamp>, last: string)

  /** A fresh deduplicator: nothing cached, no last text (the source's
      default window is five seconds). */
  function NewDedup(window: int): (d: Dedup)
    ensures d.window == window && d.recent == [] && d.last == ""
  {
    Dedup(window, [], "")
  }

  /** The cache entries still younger than the window at `now`, in order. */
  function Pruned(recent: seq<Stamp>, now: int, window: int): (r: seq<Stamp>)
    ensures |r| <= |recent|
    ensures forall e :: e in r <==> e in recent && now - e.time < window
    ensures recent == [] ==> r == []
  {
    if recent == [] then []
    else (if now - recent[0].time < window then [recent[0]] else []) + Pruned(recent[1..], now, window)
  }

  /** Whether a cache entry has hash `h`. */
  predicate HasHash(recent: seq<Stamp>, h: nat) {
    exists e :: e in recent && e.hash == h
  }

  /** The loop over the cache looking for `h`. */
  function FindHash(recent: seq<Stamp>, h: nat): (found: bool)
    ensures found <==> HasHash(recent, h)
  {
    if recent == [] then false
    else recent[0].hash == h || (assert forall e :: e in recent[1..] ==> e in recent; FindHash(recent[1..], h))
  }

  /** The reference: a text is a duplicate when it is not empty and it
      either is the last accepted text or hashes like an accepted text
      stored less than `window` ago. */
  predicate Seen(d: Dedup, message: string, now: int, hash: string -> nat) {
    message != ""
    && (message == d.last
        || exists e :: e in d.recent && now - e.time < d.window && e.hash == hash(message))
  }

  /** Python `is_duplicate`. An empty text is never a duplicate and the
      state is untouched; a text equal to the last accepted one is a
      duplicate, state untouched. Otherwise the cache is pruned and, if
      the text's hash is cached, it is a duplicate; if not, its hash is
      cached with the current time and it becomes the last text. */
  function IsDuplicate(d: Dedup, message: string, now: int, hash: string -> nat): (r: (bool, Dedup))
    ensures r.0 <==> Seen(d, message, now, hash)
    ensures message == "" || message == d.last ==> r.1 == d
    ensures r.1.window == d.window
    ensures message != "" && message != d.last && r.0 ==>
              r.1.recent == Pruned(d.recent, now, d.window) && r.1.last == d.last
    ensures message != "" && !r.0 ==>
              r.1.recent == Pruned(d.recent, now, d.window) + [Stamp(hash(message), now)] && r.1.last == message
  {
    if message == "" then (false, d)
    else if message == d.last then (true, d)
    else
      var h := hash(message);
      var kept := Pruned(d.recent, now, d.window);
      if FindHash(kept, h) then (true, d.(recent := kept))
      else (false, d.(recent := kept + [Stamp(h, now)], last := message))
  }

  /** The cache invariant at time `now`: every entry is younger than the
      window. */
  predicate Fresh(d: Dedup, now: int) {
    forall e :: e in d.recent ==> now - e.time < d.window
  }

  /** A check that reaches the cache leaves only entries younger than the
      window (for a positive window). */
  lemma IsDuplicateKeepsFresh(d: Dedup, message: string, now: int, hash: string -> nat)
    requires 0 < d.window && message != "" && message != d.last
    ensures Fresh(IsDuplicate(d, message, now, hash).1, now)
  {
  }

  /** The last-text check has no expiry: the last accepted text is a
      duplicate at any later time. */
  lemma LastTextNeverExpires(d: Dedup, message: string, now: int, later: int, hash: string -> nat)
    requires message != "" && !IsDuplicate(d, message, now, hash).0
    ensures IsDuplicate(IsDuplicate(d, message, now, hash).1, message, later, hash).0
  {
  }

  /** Hence the same text twice in a row: not a duplicate, then a duplicate. */
  lemma TwiceInARow(message: string, window: int, now: int, later: int, hash: string -> nat)
    requires message != ""
    ensures var d := NewDedup(window);
      !IsDuplicate(d, message, now, hash).0
      && IsDuplicate(IsDuplicate(d, message, now, hash).1, message, later, hash).0
  {
  }

  /** A cached hash expires: once the window has passed and the text is no
      longer the last one, a text hashing like it is new again. */
  lemma HashExpires(d: Dedup, message: string, now: int, hash: string -> nat)
    requires message != "" && message != d.last
    requires forall e :: e in d.recent ==> now - e.time >= d.window
    ensures !IsDuplicate(d, message, now, hash).0
  {
  }

  /** Python `clear_cache`: the cache and the last text are emptied. */
  function ClearCache(d: Dedup): (r: Dedup)
    ensures r.recent == [] && r.last == "" && r.window == d.window
  {
    d.(recent := [], last := "")
  }

  /** After clearing, no non-empty text is a duplicate. */
  lemma ClearedForgetsAll(d: Dedup, message: string, now: int, hash: string -> nat)
    requires message != ""
    ensures !IsDuplicate(ClearCache(d), message, now, hash).0
  {
  }
}
