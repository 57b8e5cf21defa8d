/**
 * The OTP collection (server/models/OTP.js): records bound to a user id, with no uniqueness on
 * either `userId` or `code`, and a TTL index that lets the database delete records once
 * `expiresAt` has passed. The collection is a sequence, and the model assumes that `findOne`
 * scans it in insertion order; MongoDB itself does not promise any scan order.
 */
module OtpModel {
  import opened Outcomes
  import opened UserModel

  /** A stored code. Every field is required by the schema; `expiresAt` is in milliseconds. */
  datatype Otp = Otp(userId: ObjectId, code: string, expiresAt: int)

  /** The test verifyOTP applies: a record has expired once `expiresAt` is strictly before `now`. */
  predicate Expired(o: Otp, now: int) {
    o.expiresAt < now
  }

  predicate Matches(o: Otp, userId: ObjectId, code: string) {
    o.userId == userId && o.code == code
  }

  /** `OTP.findOne({ userId, code })`: the position of the first matching record. */
  function FindFirst(otps: seq<Otp>, userId: ObjectId, code: string): (r: Option<nat>)
    ensures r.Some? ==> r.value < |otps| && Matches(otps[r.value], userId, code)
    ensures r.Some? ==> forall j :: 0 <= j < r.value ==> !Matches(otps[j], userId, code)
    ensures r.None? <==> forall j :: 0 <= j < |otps| ==> !Matches(otps[j], userId, code)
  {
    if otps == [] then None
    else if Matches(otps[0], userId, code) then Some(0)
    else match FindFirst(otps[1..], userId, code)
      case None => None
      case Some(i) => Some(i + 1)
  }

  /** The records of `otps` that satisfy `keep`, in their original order. */
  function Keep(otps: seq<Otp>, keep: Otp -> bool): (r: seq<Otp>)
    ensures |r| <= |otps|
    ensures forall o :: o in r ==> o in otps && keep(o)
    ensures forall o :: o in otps && keep(o) ==> o in r
  {
    if otps == [] then []
    else
      assert otps == [otps[0]] + otps[1..];
      (if keep(otps[0]) then [otps[0]] else []) + Keep(otps[1..], keep)
  }

  /** Filtering keeps every copy of a kept record and no copy of a dropped one. */
  lemma {:induction false} KeepCounts(otps: seq<Otp>, keep: Otp -> bool, o: Otp)
    ensures multiset(Keep(otps, keep))[o] == if keep(o) then multiset(otps)[o] else 0
  {
    if otps != [] {
      assert otps == [otps[0]] + otps[1..];
      KeepCounts(otps[1..], keep, o);
    }
  }

  /** `OTP.deleteMany({ userId })`: every record of that user goes, every other record stays. */
  function DeleteMany(otps: seq<Otp>, userId: ObjectId): (r: seq<Otp>)
    ensures forall o :: o in r ==> o in otps && o.userId != userId
    ensures forall o :: o in otps && o.userId != userId ==> o in r
    ensures forall o :: multiset(r)[o] == if o.userId != userId then multiset(otps)[o] else 0
  {
    var keep := (o: Otp) => o.userId != userId;
    forall o ensures multiset(Keep(otps, keep))[o] == if keep(o) then multiset(otps)[o] else 0 {
      KeepCounts(otps, keep, o);
    }
    Keep(otps, keep)
  }

  /** A TTL sweep run at time `t`: the database drops every record that has expired by then. */
  function Sweep(otps: seq<Otp>, t: int): (r: seq<Otp>)
    ensures forall o :: o in r ==> o in otps && !Expired(o, t)
    ensures forall o :: o in otps && !Expired(o, t) ==> o in r
    ensures forall o :: multiset(r)[o] == if !Expired(o, t) then multiset(otps)[o] else 0
  {
    var keep := (o: Otp) => !Expired(o, t);
    forall o ensures multiset(Keep(otps, keep))[o] == if keep(o) then multiset(otps)[o] else 0 {
      KeepCounts(otps, keep, o);
    }
    Keep(otps, keep)
  }

  /** verifyOTP's gate: the first record matching `userId` and `code` is admitted unless it has
      expired. Only the first match is looked at: a later record with the same code does not help. */
  function Admit(otps: seq<Otp>, userId: ObjectId, code: string, now: int): (r: Option<nat>)
    ensures r.Some? ==> r.value < |otps| && Matches(otps[r.value], userId, code) && !Expired(otps[r.value], now)
    ensures r.Some? ==> forall j :: 0 <= j < r.value ==> !Matches(otps[j], userId, code)
    ensures r.None? <==> (forall j :: 0 <= j < |otps| ==> !Matches(otps[j], userId, code))
                         || (exists i :: 0 <= i < |otps| && Matches(otps[i], userId, code) && Expired(otps[i], now)
                                      && forall j :: 0 <= j < i ==> !Matches(otps[j], userId, code))
  {
    match FindFirst(otps, userId, code)
    case None => None
    case Some(i) => if Expired(otps[i], now) then None else Some(i)
  }

  /** A record is still admitted at the very millisecond it expires. */
  lemma AdmittedAtExpiryInstant(otps: seq<Otp>, i: nat, now: int)
    requires i < |otps| && otps[i].expiresAt == now
    requires forall j :: 0 <= j < i ==> !Matches(otps[j], otps[i].userId, otps[i].code)
    ensures Admit(otps, otps[i].userId, otps[i].code, now) == Some(i)
  {
  }

  /** A record just added is admitted while it is live, provided no older record with the same
      user and code has expired: the first match is then either live already or the new one. */
  lemma FreshCodeAdmitted(otps: seq<Otp>, userId: ObjectId, code: string, expiresAt: int, now: int)
    requires now <= expiresAt
    requires forall j :: 0 <= j < |otps| && Matches(otps[j], userId, code) ==> !Expired(otps[j], now)
    ensures Admit(otps + [Otp(userId, code, expiresAt)], userId, code, now).Some?
  {
    var added := otps + [Otp(userId, code, expiresAt)];
    assert Matches(added[|otps|], userId, code);
    var i := FindFirst(added, userId, code).value;
    if i < |otps| {
      assert added[i] == otps[i];
    }
  }

  /** The side condition of FreshCodeAdmitted is needed: an older expired record with the same
      digits is found first, and the fresh record behind it is never looked at. */
  lemma ExpiredDuplicateShadowsFreshCode()
    ensures Admit([Otp(1, "123456", 300000), Otp(1, "123456", 650000)], 1, "123456", 360000).None?
  {
  }

  /** Once a user's records are deleted, no code of that user is admitted again. */
  lemma NothingAdmittedAfterDelete(otps: seq<Otp>, userId: ObjectId, code: string, now: int)
    ensures Admit(DeleteMany(otps, userId), userId, code, now).None?
  {
  }

  /** Filtering keeps the first match in place when that match itself is kept. */
  lemma {:induction false} FindFirstSurvivesKeep(otps: seq<Otp>, keep: Otp -> bool, userId: ObjectId, code: string, i: nat)
    requires FindFirst(otps, userId, code) == Some(i) && keep(otps[i])
    ensures FindFirst(Keep(otps, keep), userId, code).Some?
    ensures Keep(otps, keep)[FindFirst(Keep(otps, keep), userId, code).value] == otps[i]
  {
    var rest := otps[1..];
    var kept := Keep(otps, keep);
    if i == 0 {
      assert kept == [otps[0]] + Keep(rest, keep);
    } else {
      FindFirstSurvivesKeep(rest, keep, userId, code, i - 1);
      var j := FindFirst(Keep(rest, keep), userId, code).value;
      if keep(otps[0]) {
        assert kept == [otps[0]] + Keep(rest, keep);
        assert kept[1..] == Keep(rest, keep);
        assert !Matches(kept[0], userId, code) && kept != [];
        assert FindFirst(kept, userId, code) == Some(j + 1) by {
          assert FindFirst(kept[1..], userId, code) == Some(j);
        }
      } else {
        assert kept == Keep(rest, keep);
      }
    }
  }

  /** Deleting one user's codes leaves every other user's verification as it was: the same
      code is admitted, and it is the same record. */
  lemma OtherUserUnaffected(otps: seq<Otp>, deleted: ObjectId, userId: ObjectId, code: string, now: int)
    requires deleted != userId
    ensures Admit(DeleteMany(otps, deleted), userId, code, now).Some? <==> Admit(otps, userId, code, now).Some?
    ensures Admit(otps, userId, code, now).Some? ==>
              DeleteMany(otps, deleted)[Admit(DeleteMany(otps, deleted), userId, code, now).value]
              == otps[Admit(otps, userId, code, now).value]
  {
    var keep := (o: Otp) => o.userId != deleted;
    var rest := DeleteMany(otps, deleted);
    match FindFirst(otps, userId, code)
    case None =>
      forall j | 0 <= j < |rest| ensures !Matches(rest[j], userId, code) {
        assert rest[j] in otps;
      }
    case Some(i) =>
      FindFirstSurvivesKeep(otps, keep, userId, code, i);
  }

  /** Correctness does not depend on the TTL sweep: a sweep at any earlier time `t` never turns
      away a code that would have been admitted, and it admits the same record. */
  lemma SweepKeepsAdmission(otps: seq<Otp>, userId: ObjectId, code: string, t: int, now: int)
    requires t <= now
    requires Admit(otps, userId, code, now).Some?
    ensures Admit(Sweep(otps, t), userId, code, now).Some?
    ensures Sweep(otps, t)[Admit(Sweep(otps, t), userId, code, now).value] == otps[Admit(otps, userId, code, now).value]
  {
    FindFirstSurvivesKeep(otps, (o: Otp) => !Expired(o, t), userId, code, Admit(otps, userId, code, now).value);
  }

  /** Whatever the sweep removed, an admitted record is a matching, unexpired record of the store. */
  lemma SweptAdmissionIsSound(otps: seq<Otp>, userId: ObjectId, code: string, t: int, now: int)
    requires Admit(Sweep(otps, t), userId, code, now).Some?
    ensures exists o :: o in otps && Matches(o, userId, code) && !Expired(o, now)
  {
  }

  /** The converse of SweepKeepsAdmission fails: when an expired record shadows a later record with
      the same code, the unswept store rejects the code and the swept store admits it. */
  lemma SweepCanUnshadowDuplicateCode()
    ensures Admit([Otp(7, "123456", 100), Otp(7, "123456", 900)], 7, "123456", 500).None?
    ensures Admit(Sweep([Otp(7, "123456", 100), Otp(7, "123456", 900)], 500), 7, "123456", 500).Some?
  {
  }
}
