/**
 * The goreth verification-code store: a login maps to a Redis hash holding a
 * one-time code (field "vcode") and an attempt counter (field "retry"), with
 * an expiry attached when the code is created. The four operations act on the
 * keyspace behind the shared client handle, passed here as `pool`.
 *
 * Each operation is specified by a pure function on a snapshot of the
 * keyspace; the methods issue the same Redis commands, in the same order, as
 * the Go functions they model and are proved to realise those functions.
 */
module Goreth {
  import opened Options
  import opened Decimal
  import opened Utf8
  import opened Redis

  /** The outcome of an operation; Ok is Go's nil error. */
  datatype Error =
    | Ok
    | LgnInvalid
    | VcodeInvalid
    | SecondsInvalid
    | LgnExists
    | LgnNotFound
    | DecodeError   // strconv.Atoi refused the stored retry text
    | BackendError  // an error reply from Redis

  /** The five errors goreth exports as package-level values. */
  predicate IsExported(e: Error) {
    e.LgnExists? || e.LgnInvalid? || e.VcodeInvalid? || e.SecondsInvalid? || e.LgnNotFound?
  }

  /** The name of an error, as its Go value is named without the "Err". */
  function Name(e: Error): string {
    match e
    case Ok => "Ok"
    case LgnInvalid => "LgnInvalid"
    case VcodeInvalid => "VcodeInvalid"
    case SecondsInvalid => "SecondsInvalid"
    case LgnExists => "LgnExists"
    case LgnNotFound => "LgnNotFound"
    case DecodeError => "DecodeError"
    case BackendError => "BackendError"
  }

  /** Their text: the error's name, ": ", then a hint. The hint for
      SecondsInvalid says "min 5" although the check it reports is
      seconds < 1. */
  function Message(e: Error): (m: string)
    requires IsExported(e)
    ensures |m| > |Name(e)| + 2 && m[..|Name(e)| + 2] == Name(e) + ": "
  {
    assert |Hint(e)| > 0;
    Name(e) + ": " + Hint(e)
  }

  /** What follows the name in the text of an exported error. */
  function Hint(e: Error): string
    requires IsExported(e)
  {
    match e
    case LgnExists => "please retry after expiration"
    case LgnInvalid => "min 3"
    case VcodeInvalid => "min 3"
    case SecondsInvalid => "min 5"
    case LgnNotFound => "no such key in db"
  }

  /** The checks SetLoginAndVcode makes before it contacts Redis: the first
      that fails, in the order login length, code length, seconds. Lengths
      are Go's, in bytes. */
  function Validate(lgn: string, vcode: string, seconds: int): (e: Error)
    ensures e == Ok || e == LgnInvalid || e == VcodeInvalid || e == SecondsInvalid
    ensures e == LgnInvalid <==> ByteLen(lgn) < 3
    ensures e == VcodeInvalid <==> ByteLen(lgn) >= 3 && ByteLen(vcode) < 3
    ensures e == SecondsInvalid <==> ByteLen(lgn) >= 3 && ByteLen(vcode) >= 3 && seconds < 1
  {
    if ByteLen(lgn) < 3 then LgnInvalid
    else if ByteLen(vcode) < 3 then VcodeInvalid
    else if seconds < 1 then SecondsInvalid
    else Ok
  }

  /** What a state-changing operation leaves in the keyspace, and returns. */
  datatype Outcome = Outcome(db: Db, err: Error)

  /** What GetVcode returns. */
  datatype Read = Read(vcode: string, retry: int, err: Error)

  /** SetLoginAndVcode: validation, then HSETNX key "vcode" vcode, then, only
      when that set the field, EXPIRE key seconds. The key may already hold
      other fields; they stay. */
  function SetLoginAndVcodeSpec(db: Db, lgn: string, vcode: string, seconds: int): Outcome {
    var v := Validate(lgn, vcode, seconds);
    if v != Ok then Outcome(db, v)
    else if Lookup(db, lgn, "vcode").Some? then Outcome(db, LgnExists)
    else Outcome(Db(db.data[lgn := Fields(db, lgn)["vcode" := vcode]], db.ttl[lgn := seconds]), Ok)
  }

  /** The script AddRetry evaluates, as one atomic step: the keyspace after
      it, and its reply. The reply is 0 when the key is missing, else what
      HINCRBY key "retry" 1 replies (None for an error reply, which writes
      nothing). */
  function RetryScript(db: Db, lgn: string): (Db, Option<int>) {
    if lgn !in db.data then (db, Some(0))
    else match IntegerAt(db, lgn, "retry")
      case None => (db, None)
      case Some(n) => (Db(db.data[lgn := db.data[lgn]["retry" := Itoa(n + 1)]], db.ttl), Some(n + 1))
  }

  /** How AddRetry reports the script's reply: an error reply is passed on,
      0 means "not found", any other count is success. */
  function ReplyError(reply: Option<int>): (e: Error)
    ensures e == Ok <==> reply.Some? && reply.value != 0
    ensures reply.None? ==> e == BackendError
    ensures reply == Some(0) ==> e == LgnNotFound
  {
    if reply.None? then BackendError
    else if reply.value == 0 then LgnNotFound
    else Ok
  }

  /** AddRetry: the script's effect on the keyspace, and its reply mapped
      to an error. */
  function AddRetrySpec(db: Db, lgn: string): Outcome {
    var script := RetryScript(db, lgn);
    Outcome(script.0, ReplyError(script.1))
  }

  /** The decoding GetVcode applies to the two fields HMGET returned: no code
      means not found; a missing retry counts as "0"; the retry text goes
      through strconv.Atoi, whose failure is reported with the code and a
      count of 0. */
  function Decode(vcodeField: Option<string>, retryField: Option<string>): (r: Read)
    ensures vcodeField.None? ==> r == Read("", 0, LgnNotFound)
    ensures vcodeField.Some? && retryField.None? ==> r == Read(vcodeField.value, 0, Ok)
    ensures vcodeField.Some? ==> r.vcode == vcodeField.value && r.err != LgnNotFound
  {
    if vcodeField.None? then Read("", 0, LgnNotFound)
    else
      var retryStr := if retryField.None? then "0" else retryField.value;
      match Atoi(retryStr)
      case Some(n) => Read(vcodeField.value, n, Ok)
      case None => Read(vcodeField.value, 0, DecodeError)
  }

  /** GetVcode: one HMGET of "vcode" and "retry", then Decode. */
  function GetVcodeSpec(db: Db, lgn: string): Read {
    Decode(Lookup(db, lgn, "vcode"), Lookup(db, lgn, "retry"))
  }

  /** DelKey: DEL key, whose count of removed keys is ignored. */
  function DelKeySpec(db: Db, key: string): Outcome {
    Outcome(Db(db.data - {key}, db.ttl - {key}), Ok)
  }

  /** Inserts a login with its code and an expiry; fails if the login already
      has a code. */
  method SetLoginAndVcode(pool: Keyspace, lgn: string, vcode: string, seconds: int) returns (err: Error)
    requires pool.Valid()
    modifies pool
    ensures pool.Valid()
    ensures Outcome(pool.Snapshot(), err) == SetLoginAndVcodeSpec(old(pool.Snapshot()), lgn, vcode, seconds)
  {
    if ByteLen(lgn) < 3 { return LgnInvalid; }
    if ByteLen(vcode) < 3 { return VcodeInvalid; }
    if seconds < 1 { return SecondsInvalid; }
    var isSaved := pool.HSetNX(lgn, "vcode", vcode);
    if !isSaved {
      // the key already holds a code
      return LgnExists;
    }
    var applied := pool.Expire(lgn, seconds);
    return Ok;
  }

  /** The Lua script AddRetry sends with EVAL, one atomic step on the server:
      EXISTS key, and HINCRBY key "retry" 1 only when it returned 1. */
  method AddRetryScript(pool: Keyspace, key: string) returns (reply: Option<int>)
    requires pool.Valid()
    modifies pool
    ensures pool.Valid()
    ensures (pool.Snapshot(), reply) == RetryScript(old(pool.Snapshot()), key)
  {
    var found := pool.Exists(key);
    if found == 1 {
      reply := pool.HIncrBy(key, "retry", 1);
    } else {
      reply := Some(0);
    }
  }

  /** Counts one verification attempt against a login that exists. */
  method AddRetry(pool: Keyspace, lgn: string) returns (err: Error)
    requires pool.Valid()
    modifies pool
    ensures pool.Valid()
    ensures Outcome(pool.Snapshot(), err) == AddRetrySpec(old(pool.Snapshot()), lgn)
  {
    var r := AddRetryScript(pool, lgn);
    if r.None? { return BackendError; }
    if r.value == 0 { return LgnNotFound; }
    return Ok;
  }

  /** The code and the attempt count stored for a login. */
  method GetVcode(pool: Keyspace, lgn: string) returns (vcode: string, retry: int, err: Error)
    ensures Read(vcode, retry, err) == GetVcodeSpec(pool.Snapshot(), lgn)
  {
    var arr := pool.HMGet(lgn, ["vcode", "retry"]);
    var r := Decode(arr[0], arr[1]);
    vcode, retry, err := r.vcode, r.retry, r.err;
  }

  /** Deletes a login and everything stored for it; no error if it is absent. */
  method DelKey(pool: Keyspace, key: string) returns (err: Error)
    requires pool.Valid()
    modifies pool
    ensures pool.Valid()
    ensures Outcome(pool.Snapshot(), err) == DelKeySpec(old(pool.Snapshot()), key)
  {
    var removed := pool.Del(key);
    return Ok;
  }
}
