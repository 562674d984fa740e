/**
 * What the four goreth operations promise, stated on their specification
 * functions: validation order, exactly-once creation, increments gated on
 * existence, decoding with defaults, idempotent deletion, and the invariant
 * that every key holds a well-formed verification record.
 */
module GorethProperties {
  import opened Options
  import opened Decimal
  import opened Utf8
  import opened Redis
  import opened Goreth

  // ----- SetLoginAndVcode -----

  /** Invalid arguments are reported in the order login, code, seconds, and
      leave the keyspace as it was. */
  lemma InvalidArgumentsChangeNothing(db: Db, lgn: string, vcode: string, seconds: int)
    ensures ByteLen(lgn) < 3 ==> SetLoginAndVcodeSpec(db, lgn, vcode, seconds) == Outcome(db, LgnInvalid)
    ensures ByteLen(lgn) >= 3 && ByteLen(vcode) < 3 ==>
              SetLoginAndVcodeSpec(db, lgn, vcode, seconds) == Outcome(db, VcodeInvalid)
    ensures ByteLen(lgn) >= 3 && ByteLen(vcode) >= 3 && seconds < 1 ==>
              SetLoginAndVcodeSpec(db, lgn, vcode, seconds) == Outcome(db, SecondsInvalid)
  {
  }

  /** The boundaries: 2 bytes are too short, 3 are enough, 0 seconds is too
      few. Lengths count bytes, so a 2-character login can pass. */
  lemma ValidationBoundaries()
    ensures Validate("ab", "121", 5) == LgnInvalid
    ensures Validate("abc", "12", 5) == VcodeInvalid
    ensures Validate("abc", "123", 0) == SecondsInvalid
    ensures Validate("qwe", "121", 1) == Ok
    ensures Validate("aé", "121", 1) == Ok
  {
  }

  /** A valid call on a login without a code stores the code, records the
      expiry and returns Ok; the login's other fields and every other key
      stay as they were. */
  lemma CreateWhenAbsent(db: Db, lgn: string, vcode: string, seconds: int)
    requires Validate(lgn, vcode, seconds) == Ok
    requires Lookup(db, lgn, "vcode").None?
    ensures var o := SetLoginAndVcodeSpec(db, lgn, vcode, seconds);
      o.err == Ok &&
      Lookup(o.db, lgn, "vcode") == Some(vcode) &&
      lgn in o.db.ttl && o.db.ttl[lgn] == seconds &&
      (forall f :: f != "vcode" ==> Lookup(o.db, lgn, f) == Lookup(db, lgn, f)) &&
      o.db.data - {lgn} == db.data - {lgn} &&
      o.db.ttl - {lgn} == db.ttl - {lgn}
  {
  }

  /** A login that has a code is never overwritten: LgnExists (after the
      argument checks) and nothing changes, not the code, the count or the
      expiry. */
  lemma CreateExactlyOnce(db: Db, lgn: string, vcode: string, seconds: int)
    requires Lookup(db, lgn, "vcode").Some?
    ensures var v := Validate(lgn, vcode, seconds);
      SetLoginAndVcodeSpec(db, lgn, vcode, seconds) == Outcome(db, if v != Ok then v else LgnExists)
  {
  }

  /** A fresh login, created and read back: the code, and no attempts yet. A
      second create with another code reports LgnExists and the first code is
      what a read still finds. */
  lemma SecondCreateKeepsFirst(db: Db, lgn: string, v1: string, s1: int, v2: string, s2: int)
    requires Validate(lgn, v1, s1) == Ok && Validate(lgn, v2, s2) == Ok
    requires lgn !in db.data
    ensures var first := SetLoginAndVcodeSpec(db, lgn, v1, s1);
      var second := SetLoginAndVcodeSpec(first.db, lgn, v2, s2);
      first.err == Ok && GetVcodeSpec(first.db, lgn) == Read(v1, 0, Ok) &&
      second == Outcome(first.db, LgnExists)
  {
  }

  // ----- AddRetry -----

  /** No resurrection: on a missing key AddRetry reports LgnNotFound and
      creates nothing, so a read afterwards still finds nothing. */
  lemma NoResurrection(db: Db, lgn: string)
    requires lgn !in db.data
    ensures AddRetrySpec(db, lgn) == Outcome(db, LgnNotFound)
    ensures GetVcodeSpec(AddRetrySpec(db, lgn).db, lgn) == Read("", 0, LgnNotFound)
  {
  }

  /** On an existing key whose count is n (0 when absent), AddRetry stores
      n + 1 and returns Ok unless that is 0; every other field, every other
      key and the expiries are untouched. */
  lemma IncrementExisting(db: Db, lgn: string, n: int)
    requires lgn in db.data && IntegerAt(db, lgn, "retry") == Some(n)
    ensures AddRetrySpec(db, lgn).err == if n + 1 == 0 then LgnNotFound else Ok
    ensures var d := AddRetrySpec(db, lgn).db;
      lgn in d.data && IntegerAt(d, lgn, "retry") == Some(n + 1)
    ensures Fields(AddRetrySpec(db, lgn).db, lgn) - {"retry"} == Fields(db, lgn) - {"retry"}
    ensures var d := AddRetrySpec(db, lgn).db;
      d.data - {lgn} == db.data - {lgn} && d.ttl == db.ttl
  {
    RedisIntegerItoa(n + 1);
  }

  /** A retry field Redis cannot read as an integer makes HINCRBY fail inside
      the script: an error reply, nothing changed. */
  lemma CorruptRetryBlocksIncrement(db: Db, lgn: string)
    requires lgn in db.data && Lookup(db, lgn, "retry").Some?
    requires RedisInteger(Lookup(db, lgn, "retry").value).None?
    ensures AddRetrySpec(db, lgn) == Outcome(db, BackendError)
  {
  }

  /** The keyspace after k calls of AddRetry in a row on the same login. */
  function AddRetryTimes(db: Db, lgn: string, k: nat): Db {
    if k == 0 then db else AddRetrySpec(AddRetryTimes(db, lgn, k - 1), lgn).db
  }

  /** d holds lgn with the count n, and otherwise agrees with db: the
      login's other fields, the other keys and every expiry. */
  ghost predicate CountedFrom(d: Db, db: Db, lgn: string, n: int) {
    lgn in d.data && IntegerAt(d, lgn, "retry") == Some(n) &&
    Fields(d, lgn) - {"retry"} == Fields(db, lgn) - {"retry"} &&
    d.data - {lgn} == db.data - {lgn} && d.ttl == db.ttl
  }

  /** k calls of AddRetry on an existing key with a non-negative count m
      leave the count at m + k, the other fields, the other keys and the
      expiries as they were. */
  lemma {:induction false} RetriesAccumulate(db: Db, lgn: string, m: nat, k: nat)
    requires lgn in db.data && IntegerAt(db, lgn, "retry") == Some(m)
    ensures CountedFrom(AddRetryTimes(db, lgn, k), db, lgn, m + k)
  {
    if k > 0 {
      RetriesAccumulate(db, lgn, m, k - 1);
      RetryStep(db, lgn, m, k);
    }
  }

  /** The k-th call of such a series, given what the first k - 1 left. */
  lemma RetryStep(db: Db, lgn: string, m: nat, k: nat)
    requires k > 0
    requires CountedFrom(AddRetryTimes(db, lgn, k - 1), db, lgn, m + (k - 1))
    ensures CountedFrom(AddRetryTimes(db, lgn, k), db, lgn, m + k)
  {
    IncrementExisting(AddRetryTimes(db, lgn, k - 1), lgn, m + (k - 1));
  }

  /** Each of those k calls returns Ok. */
  lemma RetriesSucceed(db: Db, lgn: string, m: nat, k: nat)
    requires lgn in db.data && IntegerAt(db, lgn, "retry") == Some(m)
    ensures forall i: nat :: i < k ==> AddRetrySpec(AddRetryTimes(db, lgn, i), lgn).err == Ok
  {
    forall i: nat | i < k
      ensures AddRetrySpec(AddRetryTimes(db, lgn, i), lgn).err == Ok
    {
      RetriesAccumulate(db, lgn, m, i);
      IncrementExisting(AddRetryTimes(db, lgn, i), lgn, m + i);
    }
  }

  // ----- GetVcode -----

  /** What a read returns: not found without a code; with a code, the count 0
      when there is no retry field, the parsed count when strconv.Atoi accepts
      its text, and DecodeError with count 0 when it does not. */
  lemma ReadResults(db: Db, lgn: string)
    ensures Lookup(db, lgn, "vcode").None? ==> GetVcodeSpec(db, lgn) == Read("", 0, LgnNotFound)
    ensures Lookup(db, lgn, "vcode").Some? && Lookup(db, lgn, "retry").None? ==>
              GetVcodeSpec(db, lgn) == Read(Lookup(db, lgn, "vcode").value, 0, Ok)
    ensures Lookup(db, lgn, "vcode").Some? && Lookup(db, lgn, "retry").Some? ==>
              GetVcodeSpec(db, lgn) ==
                match Atoi(Lookup(db, lgn, "retry").value)
                case Some(n) => Read(Lookup(db, lgn, "vcode").value, n, Ok)
                case None => Read(Lookup(db, lgn, "vcode").value, 0, DecodeError)
  {
  }

  /** A read gives back exactly the count HINCRBY last wrote. */
  lemma DecodeReadsBackRetry(vcode: string, n: int)
    ensures Decode(Some(vcode), Some(Itoa(n))) == Read(vcode, n, Ok)
  {
    AtoiItoa(n);
  }

  /** A read sees the count HINCRBY would see. */
  lemma ReadSeesCount(db: Db, lgn: string, vcode: string, n: int)
    requires Lookup(db, lgn, "vcode") == Some(vcode) && IntegerAt(db, lgn, "retry") == Some(n)
    ensures GetVcodeSpec(db, lgn) == Read(vcode, n, Ok)
  {
  }

  /** A create followed by N calls of AddRetry: every call returns Ok, and the
      next read returns the code with count N. */
  lemma CreateThenCount(db: Db, lgn: string, vcode: string, seconds: int, n: nat)
    requires Validate(lgn, vcode, seconds) == Ok && lgn !in db.data
    ensures SetLoginAndVcodeSpec(db, lgn, vcode, seconds).err == Ok
    ensures var created := SetLoginAndVcodeSpec(db, lgn, vcode, seconds).db;
      forall i: nat :: i < n ==> AddRetrySpec(AddRetryTimes(created, lgn, i), lgn).err == Ok
    ensures var counted := AddRetryTimes(SetLoginAndVcodeSpec(db, lgn, vcode, seconds).db, lgn, n);
      GetVcodeSpec(counted, lgn) == Read(vcode, n, Ok)
    ensures var counted := AddRetryTimes(SetLoginAndVcodeSpec(db, lgn, vcode, seconds).db, lgn, n);
      counted.data - {lgn} == db.data - {lgn} && counted.ttl == db.ttl[lgn := seconds]
  {
    var created := SetLoginAndVcodeSpec(db, lgn, vcode, seconds).db;
    assert lgn in created.data && Lookup(created, lgn, "vcode") == Some(vcode)
        && IntegerAt(created, lgn, "retry") == Some(0) by {
      assert Fields(created, lgn) == map["vcode" := vcode];
    }
    assert created.data - {lgn} == db.data - {lgn} && created.ttl == db.ttl[lgn := seconds] by {
      CreateWhenAbsent(db, lgn, vcode, seconds);
    }
    var counted := AddRetryTimes(created, lgn, n);
    assert Lookup(counted, lgn, "vcode") == Some(vcode) && IntegerAt(counted, lgn, "retry") == Some(n)
        && counted.data - {lgn} == created.data - {lgn} && counted.ttl == created.ttl by {
      RetriesAccumulate(created, lgn, 0, n);
      assert "vcode" in Fields(created, lgn) - {"retry"};
      assert (Fields(counted, lgn) - {"retry"})["vcode"] == vcode;
    }
    assert forall i: nat :: i < n ==> AddRetrySpec(AddRetryTimes(created, lgn, i), lgn).err == Ok by {
      RetriesSucceed(created, lgn, 0, n);
    }
    assert GetVcodeSpec(counted, lgn) == Read(vcode, n, Ok) by {
      ReadSeesCount(counted, lgn, vcode, n);
    }
  }

  // ----- DelKey -----

  /** Delete removes the key, its fields and its expiry, returns Ok, changes
      no other key, is idempotent, is a no-op on a missing key, and a read
      afterwards finds nothing. */
  lemma DeleteIdempotent(db: Db, lgn: string)
    ensures var o := DelKeySpec(db, lgn);
      o.err == Ok && lgn !in o.db.data && lgn !in o.db.ttl &&
      o.db.data - {lgn} == db.data - {lgn} && o.db.ttl - {lgn} == db.ttl - {lgn} &&
      DelKeySpec(o.db, lgn) == o &&
      GetVcodeSpec(o.db, lgn) == Read("", 0, LgnNotFound)
    ensures Wf(db) && lgn !in db.data ==> DelKeySpec(db, lgn) == Outcome(db, Ok)
  {
  }

  /** Create, any number of attempts, delete: the keyspace is exactly as it
      was before, expiries included. */
  lemma CreateCountDeleteLeavesNoTrace(db: Db, lgn: string, vcode: string, seconds: int, n: nat)
    requires Wf(db) && Validate(lgn, vcode, seconds) == Ok && lgn !in db.data
    ensures var created := SetLoginAndVcodeSpec(db, lgn, vcode, seconds);
      DelKeySpec(AddRetryTimes(created.db, lgn, n), lgn).db == db
  {
    var created := SetLoginAndVcodeSpec(db, lgn, vcode, seconds);
    var counted := AddRetryTimes(created.db, lgn, n);
    assert counted.data - {lgn} == db.data - {lgn} && counted.ttl == db.ttl[lgn := seconds] by {
      CreateThenCount(db, lgn, vcode, seconds, n);
    }
    var gone := DelKeySpec(counted, lgn).db;
    assert gone.data == db.data by {
      assert gone.data == db.data - {lgn};
    }
    assert gone.ttl == db.ttl by {
      assert lgn !in db.ttl;
      assert gone.ttl == db.ttl[lgn := seconds] - {lgn};
      forall k | k in db.ttl ensures k in gone.ttl && gone.ttl[k] == db.ttl[k] {
      }
    }
  }

  // ----- Invariants -----

  /** Every operation keeps the keyspace well-formed. */
  lemma OperationsPreserveWf(db: Db, lgn: string, vcode: string, seconds: int)
    requires Wf(db)
    ensures Wf(SetLoginAndVcodeSpec(db, lgn, vcode, seconds).db)
    ensures Wf(AddRetrySpec(db, lgn).db)
    ensures Wf(DelKeySpec(db, lgn).db)
  {
  }

  /** A retry text as AddRetry writes it: a non-negative canonical integer. */
  predicate IsCount(s: string) {
    RedisInteger(s).Some? && RedisInteger(s).value >= 0
  }

  /** Every key holds a verification record: a code, and, if any, a retry
      field holding a count. */
  ghost predicate Records(db: Db) {
    forall k :: k in db.data ==>
      "vcode" in db.data[k] && ("retry" in db.data[k] ==> IsCount(db.data[k]["retry"]))
  }

  /** The four operations keep every key a verification record: a retry
      field never appears without a code. */
  lemma OperationsPreserveRecords(db: Db, lgn: string, vcode: string, seconds: int)
    requires Records(db)
    ensures Records(SetLoginAndVcodeSpec(db, lgn, vcode, seconds).db)
    ensures Records(AddRetrySpec(db, lgn).db)
    ensures Records(DelKeySpec(db, lgn).db)
  {
    if lgn in db.data {
      var n :| IntegerAt(db, lgn, "retry") == Some(n) && n >= 0;
      RedisIntegerItoa(n + 1);
    }
  }

  /** On records, the two notions of existence agree: SetLoginAndVcode's
      ("the vcode field is present") and AddRetry's ("the key is present");
      AddRetry then never fails on a present login, and each call raises the
      count a read returns by one. */
  lemma AddRetryOnRecords(db: Db, lgn: string)
    requires Records(db)
    ensures lgn in db.data <==> Lookup(db, lgn, "vcode").Some?
    ensures AddRetrySpec(db, lgn).err == if lgn in db.data then Ok else LgnNotFound
    ensures lgn in db.data ==>
              var before := GetVcodeSpec(db, lgn);
              var after := GetVcodeSpec(AddRetrySpec(db, lgn).db, lgn);
              before.err == Ok && after == Read(before.vcode, before.retry + 1, Ok)
  {
    if lgn in db.data {
      var n :| IntegerAt(db, lgn, "retry") == Some(n) && n >= 0;
      var vcode := Lookup(db, lgn, "vcode").value;
      ReadSeesCount(db, lgn, vcode, n);
      IncrementExisting(db, lgn, n);
      ReadSeesCount(AddRetrySpec(db, lgn).db, lgn, vcode, n + 1);
    }
  }

  /** Outside that invariant the two notions differ: a key holding only a
      retry field is absent for GetVcode and SetLoginAndVcode but present for
      AddRetry, which counts on it; a later create keeps that count. */
  lemma RetryOnlyKey()
    ensures var db := Db(map["qwe" := map["retry" := "2"]], map[]);
      var raised := AddRetrySpec(db, "qwe");
      var created := SetLoginAndVcodeSpec(raised.db, "qwe", "121", 5);
      GetVcodeSpec(db, "qwe").err == LgnNotFound &&
      raised.err == Ok &&
      created.err == Ok &&
      GetVcodeSpec(created.db, "qwe") == Read("121", 3, Ok)
  {
  }

  /** The exported error values are told apart by identity in Go; their
      texts differ too. */
  lemma MessagesDiffer(e1: Error, e2: Error)
    requires IsExported(e1) && IsExported(e2) && e1 != e2
    ensures Message(e1) != Message(e2)
  {
  }

  /** The five texts, as the Go values carry them: SecondsInvalid's says
      "min 5" while its check is seconds < 1. */
  lemma MessageTexts()
    ensures Message(LgnExists) == "LgnExists" + ": " + "please retry after expiration"
    ensures Message(LgnInvalid) == "LgnInvalid" + ": " + "min 3"
    ensures Message(VcodeInvalid) == "VcodeInvalid" + ": " + "min 3"
    ensures Message(SecondsInvalid) == "SecondsInvalid" + ": " + "min 5"
    ensures Message(LgnNotFound) == "LgnNotFound" + ": " + "no such key in db"
  {
  }
}
