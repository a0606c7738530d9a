/**
  The work of encoding a message in mms_task_encode.c: the SMIL part comes first, and
  attachments are scaled down, largest first, until the message is small enough.
*/
module EncodeJob {
  import opened Common

  datatype JobState = Pending | Running | Done | TooBig | Error

  /** An attachment as far as resizing goes; there is no size when its file cannot be read. */
  datatype Attachment = Attachment(resizable: bool, size: Option<nat>)

  function Weight(a: Attachment): nat {
    if a.resizable && a.size.Some? then a.size.value else 0
  }

  /** mms_encode_job_resize: the first of the largest attachments that can be resized. */
  method LargestPart(parts: seq<Attachment>) returns (found: Option<nat>)
    ensures found.Some? ==>
      && found.value < |parts| && Weight(parts[found.value]) > 0
      && (forall i :: 0 <= i < |parts| ==> Weight(parts[i]) <= Weight(parts[found.value]))
      && forall i :: 0 <= i < found.value ==> Weight(parts[i]) < Weight(parts[found.value])
    ensures found.None? ==> forall i :: 0 <= i < |parts| ==> Weight(parts[i]) == 0
  {
    found := None;
    var largest := 0;
    for i := 0 to |parts|
      invariant found.None? ==> largest == 0
      invariant found.Some? ==> found.value < i && largest == Weight(parts[found.value]) > 0
      invariant forall j :: 0 <= j < i ==> Weight(parts[j]) <= largest
      invariant found.Some? ==> forall j :: 0 <= j < found.value ==> Weight(parts[j]) < largest
    {
      var part := parts[i];
      if part.resizable {
        if part.size.Some? {
          if largest < part.size.value {
            largest := part.size.value;
            found := Some(i);
          }
        }
      }
    }
  }

  /** The end of mms_task_encode_prepare_attachments: the SMIL part is taken to the front, the
      others keep their order. */
  method SmilFirst<T>(parts: array<T>, smil: nat)
    requires smil < parts.Length
    modifies parts
    ensures parts[..] == [old(parts[smil])] + old(parts[..smil]) + old(parts[smil + 1..])
  {
    ghost var before := parts[..];
    if smil > 0 {
      var first := parts[smil];
      ShiftUp(parts, smil);
      parts[0] := first;
    }
    Rotated(parts[..], before, smil);
  }

  /** memmove of the first elements by one place, from the last to the first. */
  method ShiftUp<T>(parts: array<T>, n: nat)
    requires n < parts.Length
    modifies parts
    ensures forall j :: 0 < j <= n ==> parts[j] == old(parts[j - 1])
    ensures forall j :: n < j < parts.Length ==> parts[j] == old(parts[j])
  {
    var i := n;
    while i > 0
      invariant 0 <= i <= n
      invariant forall j :: i < j <= n ==> parts[j] == old(parts[j - 1])
      invariant forall j :: 0 <= j < parts.Length && !(i < j <= n) ==> parts[j] == old(parts[j])
    {
      parts[i] := parts[i - 1];
      i := i - 1;
    }
  }

  lemma Rotated<T>(now: seq<T>, before: seq<T>, k: nat)
    requires k < |before| == |now| && now[0] == before[k]
    requires forall j :: 0 < j <= k ==> now[j] == before[j - 1]
    requires forall j :: k < j < |now| ==> now[j] == before[j]
    ensures now == [before[k]] + before[..k] + before[k + 1..]
  {
    var moved := [before[k]] + before[..k] + before[k + 1..];
    assert moved[0] == before[k];
    forall j | 0 < j < |now|
      ensures now[j] == moved[j]
    {
      if j > k {
        assert now[j] == before[j] == before[k + 1..][j - k - 1];
      } else {
        assert now[j] == before[j - 1] == before[..k][j - 1];
        assert ([before[k]] + before[..k])[j] == before[j - 1];
      }
    }
  }

  // --------------------------------------------------------------- until it fits

  /** What happens outside: the size of the message at every attempt to encode it, zero when
      that fails; when the job is cancelled; and whether something could be resized. */
  datatype World = World(sizes: nat -> nat, cancels: nat -> bool, resizes: nat -> bool)

  function Size(w: World, k: nat): nat {
    w.sizes(k)
  }

  predicate CancelledAfter(w: World, k: nat) {
    w.cancels(k)
  }

  predicate ResizedAfter(w: World, k: nat) {
    w.resizes(k)
  }

  predicate Fits(w: World, limit: nat, k: nat) {
    Size(w, k) > 0 && (limit == 0 || Size(w, k) <= limit)
  }

  predicate TooLarge(w: World, limit: nat, k: nat) {
    limit > 0 && Size(w, k) > limit
  }

  /** Attempt `k` was not good enough and there was reason to make another one. */
  predicate GoesOn(w: World, limit: nat, k: nat) {
    && TooLarge(w, limit, k) && !CancelledAfter(w, k) && ResizedAfter(w, k)
    && (k > 0 ==> Size(w, k) < Size(w, k - 1))
  }

  /** The last attempt. */
  predicate LastAttempt(w: World, limit: nat, n: nat) {
    !GoesOn(w, limit, n) && forall k :: 0 <= k < n ==> GoesOn(w, limit, k)
  }

  lemma {:induction false} AttemptsBounded(w: World, limit: nat, n: nat)
    requires n > 0 && forall k :: 0 <= k < n ==> GoesOn(w, limit, k)
    ensures Size(w, n - 1) + n - 1 <= Size(w, 0)
  {
    if n > 1 {
      AttemptsBounded(w, limit, n - 1);
      assert GoesOn(w, limit, n - 1);
    }
  }

  /** Attempts are made only while each is smaller than the one before and too large still:
      there are not more of them than octets over the limit. */
  lemma FewAttempts(w: World, limit: nat, n: nat)
    requires LastAttempt(w, limit, n)
    ensures n > 0 ==> limit < Size(w, 0) && n <= Size(w, 0) - limit
  {
    if n > 0 {
      AttemptsBounded(w, limit, n);
      assert GoesOn(w, limit, n - 1) && GoesOn(w, limit, 0);
    }
  }

  lemma EarlierAttempts(w: World, limit: nat, n: nat)
    requires LastAttempt(w, limit, n)
    ensures forall k :: 0 <= k < n ==> Size(w, k) > limit > 0 && ResizedAfter(w, k) && !CancelledAfter(w, k)
  {
    forall k | 0 <= k < n
      ensures Size(w, k) > limit > 0 && ResizedAfter(w, k) && !CancelledAfter(w, k)
    {
      assert GoesOn(w, limit, k);
    }
  }

  class Job {
    var state: JobState
    /** The attempt whose file is kept. */
    var path: Option<nat>

    constructor ()
      ensures state == Pending && path == None
    {
      state, path := Pending, None;
    }

    method Encode(w: World, k: nat) returns (size: nat)
      modifies this`path
      ensures size == Size(w, k) && path == if size > 0 then Some(k) else None
    {
      path := None;
      size := Size(w, k);
      if size > 0 {
        path := Some(k);
      }
    }

    /** mms_encode_job_run: the last attempt decides, and its file is there exactly when the
        message fits. A message that stays too large was cancelled, or nothing could be
        resized, or resizing did not make it smaller. */
    method Run(w: World, limit: nat) returns (ghost n: nat)
      modifies this
      ensures LastAttempt(w, limit, n)
      ensures state == if Fits(w, limit, n) then Done else if Size(w, n) > 0 then TooBig else Error
      ensures path == if Fits(w, limit, n) then Some(n) else None
      ensures state.Done? <==> Size(w, n) > 0 && (limit == 0 || Size(w, n) <= limit)
      ensures forall k :: 0 <= k < n ==>
        Size(w, k) > limit > 0 && ResizedAfter(w, k) && !CancelledAfter(w, k)
      ensures state.TooBig? ==>
        || CancelledAfter(w, n) || !ResizedAfter(w, n) || (n > 0 && Size(w, n) >= Size(w, n - 1))
    {
      state := Running;
      n := 0;
      var k := 0;
      var size := Encode(w, 0);
      var smaller := true;
      while smaller && limit > 0 && size > limit && !CancelledAfter(w, k) && ResizedAfter(w, k)
        invariant n == k && size == Size(w, k) && path == if size > 0 then Some(k) else None
        invariant forall j :: 0 <= j < k ==> GoesOn(w, limit, j)
        invariant smaller <==> k == 0 || (size > 0 && size < Size(w, k - 1))
        decreases size, smaller
      {
        assert GoesOn(w, limit, k);
        var last := size;
        k := k + 1;
        n := k;
        size := Encode(w, k);
        smaller := size > 0 && size < last;
        if !smaller {
          break;
        }
      }
      if size > 0 && (limit == 0 || size <= limit) {
        state := Done;
      } else {
        path := None;
        state := if size > 0 then TooBig else Error;
      }
      EarlierAttempts(w, limit, n);
    }
  }
}
