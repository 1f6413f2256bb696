/**
 * The sponsor-code table of the Baileys variant (src/index.js): a JavaScript
 * `Map` from a 6-character code to the phone number it was issued for, its
 * expiry instant (milliseconds) and a display timestamp.
 *
 * A JS `Map` remembers insertion order, so the model keeps the table as a
 * sequence of entries with pairwise distinct codes; `Find` gives the
 * dictionary view. The clock (`Date.now()`) and the random code generator are
 * parameters of the operations that use them.
 *
 * Expiry is compared asymmetrically in the source, and the model keeps it so:
 * redeeming and listing need `now < expiry`, purging removes only `now > expiry`.
 */
module SponsorTable {
  import opened Options

  /** CODE_EXPIRY: ten minutes in milliseconds. */
  const CODE_EXPIRY: int := 10 * 60 * 1000

  const INVALID_CODE_TEXT := "❌ Code invalide ou expiré. Obtenez un nouveau code sur notre site web."
  const PHONE_REQUIRED_TEXT := "Numéro requis"

  /** The value stored under a code. */
  datatype Pending = Pending(phone: string, expiry: int, timestamp: string)

  /** One `[code, data]` pair of the map, as `entries()` yields it. */
  datatype Entry = Entry(code: string, data: Pending)

  /** The JSON answer of `/generate-code`; `expiry` is the instant the source formats with `toLocaleTimeString`. */
  datatype GenerateResponse =
    | Rejected(error: string)
    | Issued(code: string, expiry: int, instructions: string)

  /** Text sent to a user whose code was accepted. */
  function WelcomeText(phone: string): string {
    "✅ *CONNEXION RÉUSSIE!*\n\nBienvenue " + phone + "!\n\nTapez *help* pour voir les commandes disponibles. 🤖"
  }

  function Instructions(code: string): string {
    "Envoyez \"" + code + "\" sur WhatsApp pour vous connecter"
  }

  /** A Map holds each key once. */
  ghost predicate DistinctCodes(es: seq<Entry>) {
    forall i, j :: 0 <= i < j < |es| ==> es[i].code != es[j].code
  }

  /** `map.get(code)`: the value stored under `code`, if any. */
  function Find(es: seq<Entry>, code: string): Option<Pending> {
    if es == [] then None
    else if es[0].code == code then Some(es[0].data)
    else Find(es[1..], code)
  }

  /** `map.delete(code)`: every other entry keeps its position. */
  function Delete(es: seq<Entry>, code: string): seq<Entry> {
    if es == [] then []
    else if es[0].code == code then Delete(es[1..], code)
    else [es[0]] + Delete(es[1..], code)
  }

  /** `map.set(code, p)`: an existing key keeps its position and gets the new value; a new key goes last. */
  function Set(es: seq<Entry>, code: string, p: Pending): seq<Entry> {
    if es == [] then [Entry(code, p)]
    else if es[0].code == code then [Entry(code, p)] + es[1..]
    else [es[0]] + Set(es[1..], code, p)
  }

  /** What the purge loop of `/generate-code` keeps: the entries for which `now > expiry` is false, in map order. */
  function Purged(es: seq<Entry>, now: int): seq<Entry> {
    if es == [] then []
    else (if now > es[0].data.expiry then [] else [es[0]]) + Purged(es[1..], now)
  }

  /** What `/admin/codes` lists: the entries with `now < expiry`, in map order. */
  function Active(es: seq<Entry>, now: int): seq<Entry> {
    if es == [] then []
    else (if now < es[0].data.expiry then [es[0]] else []) + Active(es[1..], now)
  }

  /** A code is accepted when it is in the table and `now` is strictly before its expiry. */
  predicate Redeemable(es: seq<Entry>, code: string, now: int) {
    Find(es, code).Some? && now < Find(es, code).value.expiry
  }

  // ---------------------------------------------------------------------------
  // What each operation does to the entries and to the dictionary `Find` exposes.

  /** `Find` answers with a stored value, and answers "absent" only when no entry holds the code. */
  lemma {:induction false} FindSpec(es: seq<Entry>, code: string)
    ensures Find(es, code).Some? ==> Entry(code, Find(es, code).value) in es
    ensures Find(es, code).None? ==> forall e :: e in es ==> e.code != code
  {
    if es != [] && es[0].code != code {
      FindSpec(es[1..], code);
    }
  }

  lemma DistinctTail(es: seq<Entry>)
    requires DistinctCodes(es) && es != []
    ensures DistinctCodes(es[1..])
    ensures forall x :: x in es[1..] ==> x.code != es[0].code
  {
    forall a, b | 0 <= a < b < |es[1..]| ensures es[1..][a].code != es[1..][b].code {
      assert es[1..][a] == es[a + 1] && es[1..][b] == es[b + 1];
    }
    forall x | x in es[1..] ensures x.code != es[0].code {
      var j :| 0 <= j < |es[1..]| && es[1..][j] == x;
      assert es[j + 1] == x;
    }
  }

  /** A sequence headed by `e` has distinct codes when its tail does and `e`'s code is not in the tail. */
  lemma FromHeadAndTail(e: Entry, rest: seq<Entry>)
    requires DistinctCodes(rest)
    requires forall x :: x in rest ==> x.code != e.code
    ensures DistinctCodes([e] + rest)
  {
    var s := [e] + rest;
    forall a, b | 0 <= a < b < |s| ensures s[a].code != s[b].code {
      assert s[b] == rest[b - 1];
      if a > 0 {
        assert s[a] == rest[a - 1];
      }
    }
  }

  /** With distinct keys, `Find` returns the value of the one entry holding the code. */
  lemma {:induction false} FindUnique(es: seq<Entry>, i: nat)
    requires DistinctCodes(es) && i < |es|
    ensures Find(es, es[i].code) == Some(es[i].data)
  {
    if i > 0 {
      DistinctTail(es);
      FindUnique(es[1..], i - 1);
    }
  }

  /** Deleting keeps exactly the entries that hold another code. */
  lemma {:induction false} DeleteMembers(es: seq<Entry>, code: string)
    ensures forall e :: e in Delete(es, code) <==> e in es && e.code != code
  {
    if es != [] {
      DeleteMembers(es[1..], code);
    }
  }

  lemma {:induction false} DeleteConcat(a: seq<Entry>, b: seq<Entry>, code: string)
    ensures Delete(a + b, code) == Delete(a, code) + Delete(b, code)
  {
    if a == [] {
      assert a + b == b;
    } else {
      assert (a + b)[1..] == a[1..] + b;
      DeleteConcat(a[1..], b, code);
    }
  }

  lemma {:induction false} DeleteAbsent(es: seq<Entry>, code: string)
    requires forall e :: e in es ==> e.code != code
    ensures Delete(es, code) == es
  {
    if es != [] {
      DeleteAbsent(es[1..], code);
    }
  }

  /** Deleting a key forgets that key and nothing else. */
  lemma {:induction false} FindDelete(es: seq<Entry>, code: string, k: string)
    ensures Find(Delete(es, code), k) == if k == code then None else Find(es, k)
  {
    if es != [] {
      FindDelete(es[1..], code, k);
    }
  }

  lemma {:induction false} DeleteKeepsDistinct(es: seq<Entry>, code: string)
    requires DistinctCodes(es)
    ensures DistinctCodes(Delete(es, code))
  {
    if es != [] {
      DistinctTail(es);
      DeleteKeepsDistinct(es[1..], code);
      if es[0].code != code {
        DeleteMembers(es[1..], code);
        FromHeadAndTail(es[0], Delete(es[1..], code));
      }
    }
  }

  /** Setting a key maps it to the new value and leaves every other key as it was. */
  lemma {:induction false} FindSet(es: seq<Entry>, code: string, p: Pending, k: string)
    ensures Find(Set(es, code, p), k) == if k == code then Some(p) else Find(es, k)
  {
    if es != [] && es[0].code != code {
      FindSet(es[1..], code, p, k);
    }
  }

  lemma {:induction false} SetMembers(es: seq<Entry>, code: string, p: Pending)
    ensures forall e :: e in Set(es, code, p) ==> e in es || e == Entry(code, p)
  {
    if es != [] && es[0].code != code {
      SetMembers(es[1..], code, p);
    }
  }

  lemma {:induction false} SetKeepsDistinct(es: seq<Entry>, code: string, p: Pending)
    requires DistinctCodes(es)
    ensures DistinctCodes(Set(es, code, p))
  {
    if es != [] {
      DistinctTail(es);
      if es[0].code == code {
        FromHeadAndTail(Entry(code, p), es[1..]);
      } else {
        SetKeepsDistinct(es[1..], code, p);
        SetMembers(es[1..], code, p);
        FromHeadAndTail(es[0], Set(es[1..], code, p));
      }
    }
  }

  /** The purge keeps exactly the entries that are not past expiry. */
  lemma {:induction false} PurgedMembers(es: seq<Entry>, now: int)
    ensures forall e :: e in Purged(es, now) <==> e in es && !(now > e.data.expiry)
  {
    if es != [] {
      PurgedMembers(es[1..], now);
    }
  }

  /** The listing holds exactly the entries with `now < expiry`. */
  lemma {:induction false} ActiveMembers(es: seq<Entry>, now: int)
    ensures forall e :: e in Active(es, now) <==> e in es && now < e.data.expiry
  {
    if es != [] {
      ActiveMembers(es[1..], now);
    }
  }

  lemma {:induction false} PurgedConcat(a: seq<Entry>, b: seq<Entry>, now: int)
    ensures Purged(a + b, now) == Purged(a, now) + Purged(b, now)
  {
    if a == [] {
      assert a + b == b;
    } else {
      var head := if now > a[0].data.expiry then [] else [a[0]];
      calc {
        Purged(a + b, now);
        == { assert (a + b)[0] == a[0]; assert (a + b)[1..] == a[1..] + b; }
        head + Purged(a[1..] + b, now);
        == { PurgedConcat(a[1..], b, now); }
        head + (Purged(a[1..], now) + Purged(b, now));
      }
    }
  }

  lemma {:induction false} ActiveConcat(a: seq<Entry>, b: seq<Entry>, now: int)
    ensures Active(a + b, now) == Active(a, now) + Active(b, now)
  {
    if a == [] {
      assert a + b == b;
    } else {
      var head := if now < a[0].data.expiry then [a[0]] else [];
      calc {
        Active(a + b, now);
        == { assert (a + b)[0] == a[0]; assert (a + b)[1..] == a[1..] + b; }
        head + Active(a[1..] + b, now);
        == { ActiveConcat(a[1..], b, now); }
        head + (Active(a[1..], now) + Active(b, now));
      }
    }
  }

  /** Purging keeps every code distinct, since it only drops entries. */
  lemma {:induction false} PurgedKeepsDistinct(es: seq<Entry>, now: int)
    requires DistinctCodes(es)
    ensures DistinctCodes(Purged(es, now))
  {
    if es != [] {
      DistinctTail(es);
      PurgedKeepsDistinct(es[1..], now);
      if !(now > es[0].data.expiry) {
        PurgedMembers(es[1..], now);
        FromHeadAndTail(es[0], Purged(es[1..], now));
      }
    }
  }

  /** The purge forgets exactly the codes whose expiry is strictly before `now`; every other code keeps its value. */
  lemma FindPurged(es: seq<Entry>, now: int, k: string)
    requires DistinctCodes(es)
    ensures Find(Purged(es, now), k) ==
      if Find(es, k).Some? && !(now > Find(es, k).value.expiry) then Find(es, k) else None
  {
    var r := Purged(es, now);
    PurgedKeepsDistinct(es, now);
    PurgedMembers(es, now);
    FindSpec(es, k);
    FindSpec(r, k);
    if Find(es, k).Some? {
      var p := Find(es, k).value;
      var i :| 0 <= i < |es| && es[i] == Entry(k, p);
      if !(now > p.expiry) {
        var j :| 0 <= j < |r| && r[j] == Entry(k, p);
        FindUnique(r, j);
      }
    }
  }

  /** In a table with distinct codes, no entry before or after position `i` holds the code at `i`. */
  lemma CodeOnlyAt(es: seq<Entry>, i: nat)
    requires DistinctCodes(es) && i < |es|
    ensures forall x :: x in es[..i] ==> x.code != es[i].code
    ensures forall x :: x in es[i + 1..] ==> x.code != es[i].code
  {
    forall x | x in es[..i] ensures x.code != es[i].code {
      var j :| 0 <= j < i && es[..i][j] == x;
      assert es[j] == x;
    }
    forall x | x in es[i + 1..] ensures x.code != es[i].code {
      var j :| 0 <= j < |es[i + 1..]| && es[i + 1..][j] == x;
      assert es[i + 1 + j] == x;
    }
  }

  /** One step of the purge loop: deleting the current entry when it is past expiry extends the purged prefix by one. */
  lemma PurgeStep(snapshot: seq<Entry>, i: nat, now: int)
    requires DistinctCodes(snapshot) && i < |snapshot|
    ensures now > snapshot[i].data.expiry ==>
      Purged(snapshot[..i + 1], now) + snapshot[i + 1..] == Delete(Purged(snapshot[..i], now) + snapshot[i..], snapshot[i].code)
    ensures now <= snapshot[i].data.expiry ==>
      Purged(snapshot[..i + 1], now) + snapshot[i + 1..] == Purged(snapshot[..i], now) + snapshot[i..]
  {
    var e, done, rest := snapshot[i], Purged(snapshot[..i], now), snapshot[i + 1..];
    var kept := if now > e.data.expiry then [] else [e];
    assert snapshot[i..] == [e] + rest;
    assert Purged(snapshot[..i + 1], now) == done + kept by {
      assert snapshot[..i + 1] == snapshot[..i] + [e];
      PurgedConcat(snapshot[..i], [e], now);
      assert Purged([e], now) == kept + Purged([], now);
    }
    if now > e.data.expiry {
      calc {
        Delete(done + ([e] + rest), e.code);
        == { DeleteConcat(done, [e] + rest, e.code); }
        Delete(done, e.code) + Delete([e] + rest, e.code);
        == { CodeOnlyAt(snapshot, i); PurgedMembers(snapshot[..i], now); DeleteAbsent(done, e.code); }
        done + Delete([e] + rest, e.code);
        == { assert ([e] + rest)[1..] == rest; DeleteAbsent(rest, e.code); }
        done + rest;
      }
    }
  }

  /** Once the loop has visited every entry, what remains is the purge of the whole snapshot, and it
      still holds each code once. */
  lemma PurgeDone(snapshot: seq<Entry>, now: int)
    requires DistinctCodes(snapshot)
    ensures Purged(snapshot[..|snapshot|], now) + snapshot[|snapshot|..] == Purged(snapshot, now)
    ensures DistinctCodes(Purged(snapshot, now))
  {
    assert snapshot[..|snapshot|] == snapshot && snapshot[|snapshot|..] == [];
    PurgedKeepsDistinct(snapshot, now);
  }

  // ---------------------------------------------------------------------------
  // The properties the sponsor flow relies on.

  /** Single use: once a code is redeemed it can never be redeemed again, whatever the clock says,
      and every other code keeps its entry. */
  lemma RedeemOnce(es: seq<Entry>, code: string, now: int, later: int)
    requires Redeemable(es, code, now)
    ensures !Redeemable(Delete(es, code), code, later)
    ensures forall k :: k != code ==> Find(Delete(es, code), k) == Find(es, k)
  {
    FindDelete(es, code, code);
    forall k | k != code ensures Find(Delete(es, code), k) == Find(es, k) {
      FindDelete(es, code, k);
    }
  }

  /** At the instant a code expires (`now == expiry`) it can neither be redeemed nor listed,
      yet the purge keeps it: the two comparisons disagree on that one instant. */
  lemma ExpiryBoundary(es: seq<Entry>, code: string, p: Pending)
    requires DistinctCodes(es)
    requires Find(es, code) == Some(p)
    ensures !Redeemable(es, code, p.expiry)
    ensures Entry(code, p) !in Active(es, p.expiry)
    ensures Find(Purged(es, p.expiry), code) == Some(p)
  {
    ActiveMembers(es, p.expiry);
    FindPurged(es, p.expiry, code);
  }

  /** Listing after a purge at the same instant shows the same entries as listing without it. */
  lemma {:induction false} ActiveAfterPurge(es: seq<Entry>, now: int)
    ensures Active(Purged(es, now), now) == Active(es, now)
  {
    if es != [] {
      ActiveAfterPurge(es[1..], now);
      var head := if now > es[0].data.expiry then [] else [es[0]];
      ActiveConcat(head, Purged(es[1..], now), now);
    }
  }

  /** A code issued at `issuedAt` can be redeemed at any instant before `issuedAt + CODE_EXPIRY`,
      and the welcome then names the phone it was issued for. */
  lemma IssuedIsRedeemable(es: seq<Entry>, code: string, phone: string, now: int, issuedAt: int, ts: string, t: int)
    requires t < issuedAt + CODE_EXPIRY
    ensures var table := Set(Purged(es, now), code, Pending(phone, issuedAt + CODE_EXPIRY, ts));
      && Redeemable(table, code, t)
      && Find(table, code).value.phone == phone
  {
    FindSet(Purged(es, now), code, Pending(phone, issuedAt + CODE_EXPIRY, ts), code);
  }

  /** Whether the request body carries a phone number: the source tests `!phone`, so an absent or empty one is refused. */
  predicate HasPhone(phone: Option<string>) {
    phone.Some? && phone.value != ""
  }

  /** The table behind `pendingConnections`, updated in place by the web routes and the message handler. */
  class Table {
    var entries: seq<Entry>

    ghost predicate Valid()
      reads this
    {
      DistinctCodes(entries)
    }

    constructor ()
      ensures Valid() && entries == []
    {
      entries := [];
    }

    /** The message handler's code branch: a valid code is deleted and welcomed; anything else
        gets the fixed refusal and leaves the table as it was, even an expired entry. */
    method Redeem(code: string, now: int) returns (reply: string)
      requires Valid()
      modifies this
      ensures Valid()
      ensures Redeemable(old(entries), code, now) ==>
        entries == Delete(old(entries), code) && reply == WelcomeText(Find(old(entries), code).value.phone)
      ensures !Redeemable(old(entries), code, now) ==>
        entries == old(entries) && reply == INVALID_CODE_TEXT
    {
      var connection := Find(entries, code);
      if connection.Some? && now < connection.value.expiry {
        DeleteKeepsDistinct(entries, code);
        entries := Delete(entries, code);
        reply := WelcomeText(connection.value.phone);
      } else {
        reply := INVALID_CODE_TEXT;
      }
    }

    /** The purge loop of `/generate-code`. It walks the entries and deletes the current one
        when `now > expiry`; a JS Map iterator survives deleting the entry it stands on, so
        walking a snapshot of the entries visits the same ones. */
    method Purge(now: int)
      requires Valid()
      modifies this
      ensures Valid()
      ensures entries == Purged(old(entries), now)
    {
      var snapshot := entries;
      var i := 0;
      while i < |snapshot|
        invariant 0 <= i <= |snapshot|
        invariant entries == Purged(snapshot[..i], now) + snapshot[i..]
        invariant DistinctCodes(snapshot)
      {
        PurgeVisit(snapshot, i, now);
        i := i + 1;
      }
      PurgeDone(snapshot, now);
    }

    /** One turn of the purge loop: the entry at `snapshot[i]` is deleted when `now > expiry`. */
    method PurgeVisit(snapshot: seq<Entry>, i: nat, now: int)
      requires DistinctCodes(snapshot) && i < |snapshot|
      requires entries == Purged(snapshot[..i], now) + snapshot[i..]
      modifies this
      ensures entries == Purged(snapshot[..i + 1], now) + snapshot[i + 1..]
    {
      PurgeStep(snapshot, i, now);
      var e := snapshot[i];
      if now > e.data.expiry {
        entries := Delete(entries, e.code);
      }
    }

    /** `POST /generate-code`. Without a phone nothing changes. With one, the expired codes are
        purged at `now`, then `code` is mapped to the phone with expiry `issuedAt + CODE_EXPIRY`
        (the source reads the clock a second time), overwriting an entry with the same code. */
    method GenerateCode(phone: Option<string>, code: string, now: int, issuedAt: int, timestamp: string)
      returns (response: GenerateResponse)
      requires Valid()
      modifies this
      ensures Valid()
      ensures !HasPhone(phone) ==> entries == old(entries) && response == Rejected(PHONE_REQUIRED_TEXT)
      ensures HasPhone(phone) ==>
        && entries == Set(Purged(old(entries), now), code, Pending(phone.value, issuedAt + CODE_EXPIRY, timestamp))
        && response == Issued(code, issuedAt + CODE_EXPIRY, Instructions(code))
    {
      if !HasPhone(phone) {
        return Rejected(PHONE_REQUIRED_TEXT);
      }
      Purge(now);
      var expiry := issuedAt + CODE_EXPIRY;
      SetKeepsDistinct(entries, code, Pending(phone.value, expiry, timestamp));
      entries := Set(entries, code, Pending(phone.value, expiry, timestamp));
      response := Issued(code, expiry, Instructions(code));
    }

    /** `GET /admin/codes`: pushes every entry with `now < expiry`, in map order, and changes nothing. */
    method ActiveCodes(now: int) returns (active: seq<Entry>)
      ensures active == Active(entries, now)
      ensures forall e :: e in active <==> e in entries && now < e.data.expiry
    {
      ActiveMembers(entries, now);
      active := [];
      var i := 0;
      while i < |entries|
        invariant 0 <= i <= |entries|
        invariant active == Active(entries[..i], now)
      {
        assert entries[..i + 1] == entries[..i] + [entries[i]];
        ActiveConcat(entries[..i], [entries[i]], now);
        if now < entries[i].data.expiry {
          active := active + [entries[i]];
        }
        i := i + 1;
      }
      assert entries[..i] == entries;
    }
  }
}
