/**
 * The client-side helpers shared by client.py and client_feed.py:
 * `retry_with_backoff`, with the remote call's outcomes given as data and the
 * sleeps recorded instead of taken, and `parse_response`, with JSON decoding
 * given as an oracle `decode` returning `None` on a decode error.
 */
module Client {
  import opened Wrappers
  import opened Util

  // ---------------------------------------------------------------------------
  // retry_with_backoff

  /** What one call of `func` does. */
  datatype Call<T> = Returns(value: T) | Raises(fault: string)

  /** How `retry_with_backoff` ends: with a value, by re-raising, or by falling off the loop (`None`). */
  datatype Retried<T> = Returned(value: T) | Reraised(fault: string) | NoneReturned

  /** The sleeps before retries 1..n: the delay starts at `initialDelay` and doubles each time. */
  function Delays(initialDelay: int, n: nat): (ds: seq<int>)
    ensures |ds| == n
    ensures forall j :: 0 <= j < n ==> ds[j] == initialDelay * Pow2(j)
  {
    if n == 0 then [] else Delays(initialDelay, n - 1) + [initialDelay * Pow2(n - 1)]
  }

  /** Each sleep is twice the one before it. */
  lemma DelaysDouble(initialDelay: int, n: nat)
    ensures forall j :: 0 < j < n ==> Delays(initialDelay, n)[j] == 2 * Delays(initialDelay, n)[j - 1]
  {
    if n > 0 {
      forall j | 0 < j < n
        ensures initialDelay * Pow2(j) == 2 * (initialDelay * Pow2(j - 1))
      {
        assert Pow2(j) == 2 * Pow2(j - 1);
      }
    }
  }

  /**
   * Reference outcome of `retry_with_backoff` over the first `maxRetries`
   * call outcomes: the result, the number of calls made, and the sleeps.
   */
  function Retry<T>(calls: seq<Call<T>>, maxRetries: int, initialDelay: int): (Retried<T>, nat, seq<int>)
    requires maxRetries <= |calls|
  {
    if maxRetries <= 0 then (NoneReturned, 0, [])
    else
      var succeeded := seq(maxRetries, k requires 0 <= k < maxRetries => calls[k].Returns?);
      match FirstTrue(succeeded)
      case Some(k) => (Returned(calls[k].value), k + 1, Delays(initialDelay, k))
      case None =>
        assert !succeeded[maxRetries - 1];
        (Reraised(calls[maxRetries - 1].fault), maxRetries, Delays(initialDelay, maxRetries - 1))
  }

  /** `retry_with_backoff(func, max_retries, initial_delay)`; `calls[k]` is what the (k+1)-th call of `func` does. */
  method RetryWithBackoff<T>(calls: seq<Call<T>>, maxRetries: int, initialDelay: int)
    returns (r: Retried<T>, made: nat, sleeps: seq<int>)
    requires maxRetries <= |calls|
    ensures (r, made, sleeps) == Retry(calls, maxRetries, initialDelay)
    ensures made <= Max(maxRetries, 0)
    // with no retries allowed, `func` is never called and the result is None
    ensures maxRetries <= 0 ==> r == NoneReturned && made == 0 && sleeps == []
    ensures maxRetries >= 1 ==> !r.NoneReturned? && made >= 1
    // the first successful result is returned at once
    ensures r.Returned? ==> calls[made - 1] == Returns(r.value)
    ensures forall j :: 0 <= j < made - 1 ==> calls[j].Raises?
    // the fault of the last allowed call is re-raised
    ensures r.Reraised? ==> made == maxRetries && calls[maxRetries - 1] == Raises(r.fault)
    // one sleep between consecutive calls and none after the last
    ensures made >= 1 ==> |sleeps| == made - 1
    ensures forall j :: 0 <= j < |sleeps| ==> sleeps[j] == initialDelay * Pow2(j)
  {
    var delay := initialDelay;
    made := 0;
    sleeps := [];
    var attempt := 0;
    while attempt < maxRetries
      invariant 0 <= attempt <= Max(maxRetries, 0)
      invariant maxRetries >= 1 ==> attempt < maxRetries
      invariant made == attempt
      invariant delay == initialDelay * Pow2(attempt)
      invariant sleeps == Delays(initialDelay, attempt)
      invariant forall j :: 0 <= j < attempt ==> calls[j].Raises?
    {
      made := made + 1;
      match calls[attempt] {
        case Returns(v) =>
          r := Returned(v);
          ghost var succeeded := seq(maxRetries, k requires 0 <= k < maxRetries => calls[k].Returns?);
          assert succeeded[attempt];
          return;
        case Raises(fault) =>
          if attempt == maxRetries - 1 {
            r := Reraised(fault);
            return;
          }
          sleeps := sleeps + [delay];
          assert initialDelay * Pow2(attempt + 1) == delay * 2;
          delay := delay * 2;
      }
      attempt := attempt + 1;
    }
    r := NoneReturned;
  }

  /** With the defaults, a call failing twice then succeeding returns its value after sleeping 1 s and then 2 s. */
  lemma DefaultsFailTwiceThenSucceed<T>(first: string, second: string, v: T)
    ensures Retry([Raises(first), Raises(second), Returns(v)], 3, 1) == (Returned(v), 3, [1, 2])
  {
    var calls := [Raises(first), Raises(second), Returns(v)];
    var succeeded := seq(3, k requires 0 <= k < 3 => calls[k].Returns?);
    assert !succeeded[0] && !succeeded[1] && succeeded[2];
    assert Delays(1, 2) == [1, 2] by {
      assert Delays(1, 1) == [1];
    }
  }

  // ---------------------------------------------------------------------------
  // parse_response

  /**
   * A Python value as `parse_response` sees it: a list, an object with a
   * `.text` attribute, a decoded JSON value, a plain string, or anything else.
   */
  datatype Value<J> =
    | List(items: seq<Value<J>>)
    | TextContent(text: string)
    | Decoded(json: J)
    | Str(s: string)
    | Other(id: nat)

  /**
   * No `.text` object is left at the top level or inside nested lists. Like
   * `parse_response`, this looks inside lists only: other values are opaque.
   */
  ghost predicate Normalised<J>(v: Value<J>)
    decreases v
  {
    match v
    case List(items) => forall i :: 0 <= i < |items| ==> Normalised(items[i])
    case TextContent(_) => false
    case _ => true
  }

  function ParseResponse<J>(v: Value<J>, decode: string -> Option<J>): (r: Value<J>)
    ensures Normalised(r)
    // a list is normalised element by element, in order
    ensures v.List? ==> r.List? && |r.items| == |v.items|
    ensures v.List? ==> forall i :: 0 <= i < |v.items| ==> r.items[i] == ParseResponse(v.items[i], decode)
    decreases v
  {
    match v
    case List(items) => List(seq(|items|, i requires 0 <= i < |items| => ParseResponse(items[i], decode)))
    case TextContent(text) =>
      (match decode(text)
       case Some(json) => Decoded(json)
       case None => Str(text))
    case _ => v
  }

  /** A `.text` object becomes the decoded value, or its raw text when decoding fails. */
  lemma ParseTextContent<J>(text: string, decode: string -> Option<J>)
    ensures decode(text).Some? ==> ParseResponse(TextContent(text), decode) == Decoded(decode(text).value)
    ensures decode(text).None? ==> ParseResponse(TextContent(text), decode) == Str(text)
  {
  }

  /** Lists are normalised element by element, in order: the result on a concatenation is the concatenation. */
  lemma ParseListInOrder<J>(a: seq<Value<J>>, b: seq<Value<J>>, decode: string -> Option<J>)
    ensures ParseResponse(List(a + b), decode).items
            == ParseResponse(List(a), decode).items + ParseResponse(List(b), decode).items
  {
  }

  /** Anything already normalised, in particular anything without `.text` and not a list, is returned unchanged. */
  lemma {:induction false} ParseFixesNormalised<J>(v: Value<J>, decode: string -> Option<J>)
    requires Normalised(v)
    ensures ParseResponse(v, decode) == v
    decreases v
  {
    match v
    case List(items) =>
      forall i | 0 <= i < |items|
        ensures ParseResponse(items[i], decode) == items[i]
      {
        ParseFixesNormalised(items[i], decode);
      }
      assert ParseResponse(v, decode).items == items;
    case _ =>
  }

  /** Normalising twice is the same as normalising once. */
  lemma {:induction false} ParseIdempotent<J>(v: Value<J>, decode: string -> Option<J>)
    ensures ParseResponse(ParseResponse(v, decode), decode) == ParseResponse(v, decode)
  {
    ParseFixesNormalised(ParseResponse(v, decode), decode);
  }
}
