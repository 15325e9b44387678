/** What read(2) on the non-blocking character device may return. */
module ReadOracle {
  import opened Frames

  datatype ReadResult = Data(bytes: seq<byte>) | Again | Interrupted | Eof | Failed(errno: int)

  /** A successful read returns at least one byte. */
  predicate IsRead(r: ReadResult) {
    (r.Data? ==> |r.bytes| > 0) && (r.Failed? ==> r.errno > 0)
  }

  /** A tool that took in the first n reads and returned `ret`: a failure is returned at once, and only then. */
  ghost predicate EndsAt(results: seq<ReadResult>, n: nat, ret: int) {
    && n <= |results|
    && (ret != 0 ==> n > 0 && results[n - 1] == Failed(-ret))
    && forall i :: 0 <= i < n && results[i].Failed? ==> ret != 0 && i == n - 1
  }

  /** The bytes the first n reads delivered. */
  function Delivered(results: seq<ReadResult>, n: nat): seq<byte>
    requires n <= |results|
  {
    if n == 0 then []
    else Delivered(results, n - 1) + if results[n - 1].Data? then results[n - 1].bytes else []
  }

  /** No read began with the frame limit already delivered in whole 24-byte slices; 0 means no limit. */
  ghost predicate NotPast(results: seq<ReadResult>, n: nat, limit: nat)
    requires n <= |results|
  {
    limit > 0 && n > 0 ==> |Delivered(results, n - 1)| / 24 < limit
  }

  lemma ReadBelow(results: seq<ReadResult>, n: nat, limit: nat)
    requires n < |results| && (limit > 0 ==> |Delivered(results, n)| / 24 < limit)
    ensures NotPast(results, n + 1, limit)
  {}

  /** How many of the first n reads found nothing to read. */
  function Agains(results: seq<ReadResult>, n: nat): nat
    requires n <= |results|
  {
    if n == 0 then 0 else Agains(results, n - 1) + if results[n - 1].Again? then 1 else 0
  }

  /** How many of the first n reads returned data. */
  function Successes(results: seq<ReadResult>, n: nat): nat
    requires n <= |results|
  {
    if n == 0 then 0 else Successes(results, n - 1) + if results[n - 1].Data? then 1 else 0
  }

  lemma {:induction false} AgainsCount(results: seq<ReadResult>, n: nat)
    requires n <= |results|
    ensures Agains(results, n) == |set i | 0 <= i < n && results[i].Again?|
  {
    if n > 0 {
      AgainsCount(results, n - 1);
      var before := set i | 0 <= i < n - 1 && results[i].Again?;
      assert (set i | 0 <= i < n && results[i].Again?) == before + if results[n - 1].Again? then {n - 1} else {};
    }
  }

  lemma {:induction false} SuccessesCount(results: seq<ReadResult>, n: nat)
    requires n <= |results|
    ensures Successes(results, n) == |set i | 0 <= i < n && results[i].Data?|
  {
    if n > 0 {
      SuccessesCount(results, n - 1);
      var before := set i | 0 <= i < n - 1 && results[i].Data?;
      assert (set i | 0 <= i < n && results[i].Data?) == before + if results[n - 1].Data? then {n - 1} else {};
    }
  }
}
