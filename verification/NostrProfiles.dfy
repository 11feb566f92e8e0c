/**
 The Nostr profile cache (nostr_engine/src/nostr_engine.rs) and the table behind it
 (models/src/nostr_profiles.rs), which replace entries by tests that differ.
 */
module NostrProfiles {
  import opened Options

  type Key = string

  const U64: int := 0x1_0000_0000_0000_0000
  const I64: int := 0x8000_0000_0000_0000

  newtype Millis = x: int | 0 <= x < 0x1_0000_0000_0000_0000

  /** `profile` stands for the texts a profile carries; `verified` is the stored NIP-05 verdict, if any. */
  datatype Update = Update(pubkey: Key, created: Millis, received: Millis, verified: Option<bool>, profile: string)

  datatype Row = Row(created: int, received: int, verified: Option<bool>, profile: string)

  /** `as i64`. */
  function Cast(x: Millis): int {
    if (x as int) < I64 then x as int else x as int - U64
  }

  function Record(u: Update): Row {
    Row(Cast(u.created), Cast(u.received), u.verified, u.profile)
  }

  function Coalesced(flag: Option<bool>): bool {
    flag == Some(true)
  }

  /** The cache replaces on a newer event, or on an equally old one with another verdict. */
  predicate CacheReplaces(old_: Update, u: Update) {
    old_.created < u.created || (old_.created == u.created && old_.verified != u.verified)
  }

  /** The table reads a missing verdict as false. */
  predicate TableReplaces(old_: Row, r: Row) {
    old_.created < r.created || (old_.created == r.created && Coalesced(old_.verified) != Coalesced(r.verified))
  }

  type Cache = map<Key, Update>
  type Table = map<Key, Row>

  function Cached(c: Cache, u: Update): Cache {
    if u.pubkey !in c || CacheReplaces(c[u.pubkey], u) then c[u.pubkey := u] else c
  }

  function Upserted(t: Table, key: Key, r: Row): Table {
    if key !in t || TableReplaces(t[key], r) then t[key := r] else t
  }

  class Engine {
    var cache: Cache
    var table: Table

    constructor ()
      ensures cache == CacheAfter([]) && table == TableAfter([])
    {
      cache, table := map[], map[];
    }

    /** `store_profile`: `reachable` when a connection was had and the statement succeeded. */
    method StoreProfile(u: Update, reachable: bool, ghost past: seq<Update>) returns (inserted: bool)
      modifies this
      ensures inserted <==> u.pubkey !in old(cache) || CacheReplaces(old(cache)[u.pubkey], u)
      ensures cache == Cached(old(cache), u)
      ensures table == if reachable then Upserted(old(table), u.pubkey, Record(u)) else old(table)
      ensures reachable && old(cache) == CacheAfter(past) && old(table) == TableAfter(past) ==>
                cache == CacheAfter(past + [u]) && table == TableAfter(past + [u])
    {
      assert (past + [u])[..|past|] == past;
      if u.pubkey in cache {
        var entry := cache[u.pubkey];
        if entry.created < u.created || (entry.created == u.created && entry.verified != u.verified) {
          cache := cache[u.pubkey := u];
          inserted := true;
        } else {
          inserted := false;
        }
      } else {
        cache := cache[u.pubkey := u];
        inserted := true;
      }
      if reachable {
        table := Upserted(table, u.pubkey, Record(u));
      }
    }
  }

  // ---- histories from empty, with the database always reachable

  function CacheAfter(us: seq<Update>): Cache {
    if us == [] then map[] else Cached(CacheAfter(us[..|us| - 1]), us[|us| - 1])
  }

  function TableAfter(us: seq<Update>): Table {
    if us == [] then map[] else Upserted(TableAfter(us[..|us| - 1]), us[|us| - 1].pubkey, Record(us[|us| - 1]))
  }

  /** Update `i` is the last of those of its key with the greatest unsigned time. */
  ghost predicate Latest(us: seq<Update>, i: nat) {
    && i < |us|
    && forall j | 0 <= j < |us| && us[j].pubkey == us[i].pubkey ::
         us[j].created < us[i].created || (us[j].created == us[i].created && j <= i)
  }

  /** The same by the signed time the table stores. */
  ghost predicate LatestSigned(us: seq<Update>, i: nat) {
    && i < |us|
    && forall j | 0 <= j < |us| && us[j].pubkey == us[i].pubkey ::
         Cast(us[j].created) < Cast(us[i].created) || (us[j].created == us[i].created && j <= i)
  }

  lemma CastInjective(x: Millis, y: Millis)
    ensures Cast(x) == Cast(y) <==> x == y
    ensures (x as int < I64 <==> y as int < I64) ==> (Cast(x) < Cast(y) <==> x < y)
    ensures x as int < I64 <= y as int ==> Cast(y) < Cast(x)
  {
  }

  ghost predicate Mentions(us: seq<Update>, key: Key) {
    exists i | 0 <= i < |us| :: us[i].pubkey == key
  }

  lemma {:induction false} KeysAreThoseSeen(us: seq<Update>, key: Key)
    ensures key in CacheAfter(us) <==> Mentions(us, key)
    ensures key in TableAfter(us) <==> Mentions(us, key)
  {
    hide CacheReplaces, TableReplaces;
    if us != [] {
      var n := |us| - 1;
      KeysAreThoseSeen(us[..n], key);
      assert forall i | 0 <= i < n :: us[..n][i] == us[i];
    }
  }

  lemma LatestExtends(us: seq<Update>, i: nat)
    requires us != [] && Latest(us[..|us| - 1], i)
    ensures var n := |us| - 1;
            if us[n].pubkey == us[i].pubkey && us[i].created <= us[n].created then Latest(us, n) else Latest(us, i)
  {
    assert forall j | 0 <= j < |us| - 1 :: us[..|us| - 1][j] == us[j];
  }

  lemma LatestSignedExtends(us: seq<Update>, i: nat)
    requires us != [] && LatestSigned(us[..|us| - 1], i)
    ensures var n := |us| - 1;
            if us[n].pubkey == us[i].pubkey && Cast(us[i].created) <= Cast(us[n].created)
            then LatestSigned(us, n) else LatestSigned(us, i)
  {
    hide Cast;
    var n := |us| - 1;
    CastInjective(us[i].created, us[n].created);
    assert forall j | 0 <= j < n :: us[..n][j] == us[j];
  }

  lemma OnlyOne(us: seq<Update>)
    requires us != [] && !Mentions(us[..|us| - 1], us[|us| - 1].pubkey)
    ensures Latest(us, |us| - 1) && LatestSigned(us, |us| - 1)
  {
    assert forall j | 0 <= j < |us| - 1 :: us[..|us| - 1][j] == us[j];
  }

  /** The cache holds exactly the keys seen, each with the time and verdict of its latest update. */
  lemma {:induction false} CacheIsLatest(us: seq<Update>, key: Key) returns (i: nat)
    ensures key in CacheAfter(us) <==> Mentions(us, key)
    ensures key in CacheAfter(us) ==>
              && i < |us| && Latest(us, i) && us[i].pubkey == key
              && CacheAfter(us)[key].created == us[i].created && CacheAfter(us)[key].verified == us[i].verified
  {
    hide Latest, Mentions;
    KeysAreThoseSeen(us, key);
    i := 0;
    if us != [] {
      var n := |us| - 1;
      i := CacheIsLatest(us[..n], key);
      if key in CacheAfter(us[..n]) {
        LatestExtends(us, i);
        if us[n].pubkey == key && us[i].created <= us[n].created {
          i := n;
        }
      } else if us[n].pubkey == key {
        OnlyOne(us);
        i := n;
      }
    }
  }

  /** The table likewise, by signed time and with a missing verdict read as false. */
  lemma {:induction false} TableIsLatestSigned(us: seq<Update>, key: Key) returns (i: nat)
    ensures key in TableAfter(us) <==> Mentions(us, key)
    ensures key in TableAfter(us) ==>
              && i < |us| && LatestSigned(us, i) && us[i].pubkey == key
              && TableAfter(us)[key].created == Cast(us[i].created)
              && Coalesced(TableAfter(us)[key].verified) == Coalesced(us[i].verified)
  {
    hide Coalesced, LatestSigned, Cast, Mentions;
    KeysAreThoseSeen(us, key);
    i := 0;
    if us != [] {
      var n := |us| - 1;
      i := TableIsLatestSigned(us[..n], key);
      if key in TableAfter(us[..n]) {
        LatestSignedExtends(us, i);
        if us[n].pubkey == key && Cast(us[i].created) <= Cast(us[n].created) {
          i := n;
        }
      } else if us[n].pubkey == key {
        OnlyOne(us);
        i := n;
      }
    }
  }

  /** The cache holds an update as it came: one that was cached when it arrived, and that no later update of its
      key outdates, by a greater time or by another verdict for the same time. */
  lemma {:induction false} CacheHoldsAnUpdate(us: seq<Update>, key: Key) returns (i: nat)
    requires key in CacheAfter(us)
    ensures i < |us| && us[i].pubkey == key && CacheAfter(us)[key] == us[i] && CacheAfter(us[..i + 1])[key] == us[i]
    ensures forall j | i < j < |us| && us[j].pubkey == key ::
              us[j].created < us[i].created || (us[j].created == us[i].created && us[j].verified == us[i].verified)
  {
    var n := |us| - 1;
    var u, past := us[n], CacheAfter(us[..n]);
    assert us[..n + 1] == us;
    if u.pubkey == key && (key !in past || CacheReplaces(past[key], u)) {
      i := n;
    } else {
      i := CacheHoldsAnUpdate(us[..n], key);
      assert us[..n][..i + 1] == us[..i + 1];
    }
  }

  /** The table holds all columns of an update that no later one outdates, by a greater signed time or by another
      verdict for the same time, a missing one counting as false. */
  lemma {:induction false} TableHoldsAnUpdate(us: seq<Update>, key: Key) returns (i: nat)
    requires key in TableAfter(us)
    ensures i < |us| && us[i].pubkey == key
    ensures TableAfter(us)[key] == Row(Cast(us[i].created), Cast(us[i].received), us[i].verified, us[i].profile)
    ensures forall j | i < j < |us| && us[j].pubkey == key ::
              || Cast(us[j].created) < Cast(us[i].created)
              || (us[j].created == us[i].created && (us[j].verified == Some(true) <==> us[i].verified == Some(true)))
  {
    hide Cast;
    var n := |us| - 1;
    var u, past := us[n], TableAfter(us[..n]);
    if u.pubkey == key && (key !in past || TableReplaces(past[key], Record(u))) {
      i := n;
    } else {
      i := TableHoldsAnUpdate(us[..n], key);
      CastInjective(u.created, us[i].created);
    }
  }

  /** The times of a key's updates all fit in a signed integer, or none does. */
  ghost predicate OneSided(us: seq<Update>, key: Key) {
    forall i, j | 0 <= i < |us| && 0 <= j < |us| && us[i].pubkey == us[j].pubkey == key ::
      us[i].created as int < I64 <==> us[j].created as int < I64
  }

  ghost predicate Agree(us: seq<Update>, key: Key) {
    && (key in CacheAfter(us) <==> key in TableAfter(us))
    && (key in CacheAfter(us) ==>
          && TableAfter(us)[key].created == Cast(CacheAfter(us)[key].created)
          && Coalesced(TableAfter(us)[key].verified) == Coalesced(CacheAfter(us)[key].verified))
  }

  /** Cache and table agree on a key after any updates exactly when the cast keeps the order of its times. */
  lemma {:induction false} CacheAgreesWithTableIff(us: seq<Update>, key: Key)
    ensures Agree(us, key) <==> OneSided(us, key)
    ensures key in CacheAfter(us) <==> key in TableAfter(us)
  {
    hide CacheAfter, TableAfter, Coalesced, Cast;
    var i := CacheIsLatest(us, key);
    var j := TableIsLatestSigned(us, key);
    if key in CacheAfter(us) {
      SameLatestIff(us, key, i, j);
      CastInjective(us[i].created, us[j].created);
      if us[i].created == us[j].created {
        assert i == j;
      }
    }
  }

  lemma SameLatestIff(us: seq<Update>, key: Key, i: nat, j: nat)
    requires Latest(us, i) && LatestSigned(us, j) && us[i].pubkey == us[j].pubkey == key
    ensures us[i].created == us[j].created <==> OneSided(us, key)
  {
    hide Cast;
    CastInjective(us[i].created, us[j].created);
    forall m | 0 <= m < |us| && us[m].pubkey == key
      ensures us[i].created == us[j].created ==> (us[m].created as int < I64 <==> us[i].created as int < I64)
    {
      CastInjective(us[i].created, us[m].created);
      CastInjective(us[m].created, us[j].created);
    }
  }

  /** Two events of one key, in whole seconds on either side of the sign bit: the cache keeps the later, the
      table the earlier. */
  lemma SignBitSplitsCacheAndTable()
    ensures var early := Update("k", 9_223_372_036_854_775_000, 0, None, "");
            var late := Update("k", 9_223_372_036_854_776_000, 0, None, "");
            && early.created % 1000 == 0 && late.created % 1000 == 0 && early.created < late.created
            && CacheAfter([early, late])["k"] == late && TableAfter([early, late])["k"] == Record(early)
            && !Agree([early, late], "k")
  {
    var early := Update("k", 9_223_372_036_854_775_000, 0, None, "");
    var late := Update("k", 9_223_372_036_854_776_000, 0, None, "");
    var us := [early, late];
    assert us[..1] == [early] && us[..1][..0] == [];
    assert CacheAfter(us[..1]) == map["k" := early] && TableAfter(us[..1]) == map["k" := Record(early)];
    CacheAgreesWithTableIff(us, "k");
  }

  /** Creation times the present clock can produce never reach the sign bit, and then the two always agree on
      the maximum. */
  lemma TimelyUpdatesAgree(us: seq<Update>, key: Key)
    requires forall i | 0 <= i < |us| :: us[i].created as int < I64
    ensures Agree(us, key)
    ensures key in CacheAfter(us) ==>
              && TableAfter(us)[key].created == CacheAfter(us)[key].created as int
              && forall i | 0 <= i < |us| && us[i].pubkey == key :: us[i].created <= CacheAfter(us)[key].created
  {
    hide CacheAfter, TableAfter, Coalesced;
    CacheAgreesWithTableIff(us, key);
    var i := CacheIsLatest(us, key);
  }

  /** While the whole rows agree, an update leaves them so unless it is as old as the stored one and one of
      the two verdicts is missing where the other is false. */
  lemma WholeRowsAgreeIff(c: Cache, t: Table, u: Update)
    requires forall k :: k in c <==> k in t
    requires forall k :: k in c ==> t[k] == Record(c[k])
    requires u.pubkey in c ==> (c[u.pubkey].created as int < I64 <==> u.created as int < I64)
    ensures Upserted(t, u.pubkey, Record(u)) == (map k | k in Cached(c, u) :: Record(Cached(c, u)[k]))
      <==> !(u.pubkey in c && c[u.pubkey].created == u.created
             && c[u.pubkey].verified != u.verified && Coalesced(c[u.pubkey].verified) == Coalesced(u.verified))
  {
    hide Cast;
    var after := map k | k in Cached(c, u) :: Record(Cached(c, u)[k]);
    var stored := Upserted(t, u.pubkey, Record(u));
    assert forall k :: k in after <==> k in stored;
    assert forall k :: k in after && k != u.pubkey ==> after[k] == stored[k];
    if u.pubkey in c {
      CastInjective(c[u.pubkey].created, u.created);
    }
    assert after == stored <==> after[u.pubkey] == stored[u.pubkey];
  }
}
