/**
 * The integration scenario of goreth_test.go, played on the model keyspace: create
 * "qwe" with code "121", which must succeed, a second create with "321" that
 * must report LgnExists, eight attempts, a read that must return ("121", 8),
 * and a delete that must succeed. Here, on top, a read after the delete finds nothing, and the
 * keyspace ends as it started.
 */
module GorethExample {
  import opened Utf8
  import opened Redis
  import opened Goreth
  import opened GorethProperties

  method ExampleDbauth(pool: Keyspace)
    returns (first: Error, second: Error, attempts: seq<Error>, vcode: string, retry: int, readErr: Error, deleted: Error, afterDelete: Error)
    requires pool.Valid() && "qwe" !in pool.data
    modifies pool
    ensures pool.Valid()
    ensures first == Ok && second == LgnExists
    ensures |attempts| == 8 && forall i :: 0 <= i < 8 ==> attempts[i] == Ok
    ensures readErr == Ok && vcode == "121" && retry == 8
    ensures deleted == Ok && afterDelete == LgnNotFound
    ensures pool.data == old(pool.data) && pool.ttl == old(pool.ttl)
  {
    var key := "qwe";
    var scnd := 1;
    ghost var start := pool.Snapshot();
    assert Validate(key, "121", scnd) == Ok && Validate(key, "321", scnd) == Ok by {
      assert ByteLen(key) == 3 && ByteLen("121") == 3 && ByteLen("321") == 3;
    }

    first := SetLoginAndVcode(pool, key, "121", scnd);
    ghost var created := pool.Snapshot();
    assert created == SetLoginAndVcodeSpec(start, key, "121", scnd).db;
    assert first == Ok && pool.Snapshot() == AddRetryTimes(created, key, 0);

    second := SetLoginAndVcode(pool, key, "321", scnd);
    assert second == LgnExists && pool.Snapshot() == created by {
      SecondCreateKeepsFirst(start, key, "121", scnd, "321", scnd);
    }

    attempts := [];
    var i := 0;
    while i < 8
      invariant 0 <= i <= 8
      invariant pool.Valid()
      invariant pool.Snapshot() == AddRetryTimes(created, key, i)
      invariant |attempts| == i && forall j :: 0 <= j < i ==> attempts[j] == Ok
    {
      ghost var before := pool.Snapshot();
      assert AddRetryTimes(created, key, i + 1) == AddRetrySpec(before, key).db;
      assert AddRetrySpec(before, key).err == Ok by {
        CreateThenCount(start, key, "121", scnd, 8);
      }
      var err := AddRetry(pool, key);
      attempts := attempts + [err];
      i := i + 1;
    }

    ghost var counted := pool.Snapshot();
    vcode, retry, readErr := GetVcode(pool, key);
    assert readErr == Ok && vcode == "121" && retry == 8 by {
      CreateThenCount(start, key, "121", scnd, 8);
    }

    deleted := DelKey(pool, key);
    var v, r;
    v, r, afterDelete := GetVcode(pool, key);
    assert afterDelete == LgnNotFound && pool.Snapshot() == DelKeySpec(counted, key).db by {
      DeleteIdempotent(counted, key);
    }
    assert pool.Snapshot() == start by {
      CreateCountDeleteLeavesNoTrace(start, key, "121", scnd, 8);
    }
  }
}
