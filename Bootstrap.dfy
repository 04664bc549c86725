/** The database connection bootstrap of main.go:246-262: up to five attempts to open
    and ping the database, a sleep of i*i seconds after each failed attempt i, and a
    fatal exit when the last attempt left an error. */
module Bootstrap {
  import opened Wrappers

  const MaxAttempts := 5

  /** How one attempt goes: `sql.Open` fails, or it succeeds and `db.Ping` fails, or both succeed. */
  datatype Attempt = OpenFails | PingFails | Up

  /** The error an attempt leaves in `err`. */
  datatype ConnError = OpenError | PingError

  /** How the bootstrap ends: connected at the given attempt (1-based), or a fatal exit
      reporting the last error. */
  datatype Outcome = Connected(attempt: nat) | Fatal(lastError: ConnError)

  /** The sleep after failed attempt i, in seconds (main.go:258). */
  function Backoff(i: nat): nat { i * i }

  /** The sleeps after failed attempts 1..k, in order. */
  function Delays(k: nat): (d: seq<nat>)
    ensures |d| == k
  {
    if k == 0 then [] else Delays(k - 1) + [Backoff(k)]
  }

  function Sum(s: seq<nat>): nat
  {
    if |s| == 0 then 0 else Sum(s[..|s| - 1]) + s[|s| - 1]
  }

  /** The bootstrap loop. `attempts` stands for what the database does on each attempt;
      `sleeps` records, in order, the durations `time.Sleep` is called with. */
  method Connect(attempts: seq<Attempt>) returns (outcome: Outcome, tries: nat, sleeps: seq<nat>)
    requires |attempts| >= MaxAttempts
    ensures 1 <= tries <= MaxAttempts
    ensures forall k :: 0 <= k < tries - 1 ==> attempts[k] != Up
    ensures outcome.Connected? <==> exists k :: 0 <= k < MaxAttempts && attempts[k] == Up
    ensures outcome.Connected? ==> outcome.attempt == tries && attempts[tries - 1] == Up && sleeps == Delays(tries - 1)
    ensures outcome.Fatal? ==> tries == MaxAttempts && sleeps == Delays(MaxAttempts)
    ensures outcome.Fatal? ==>
      outcome.lastError == (if attempts[MaxAttempts - 1] == OpenFails then OpenError else PingError)
  {
    var err: Option<ConnError> := None;
    sleeps := [];
    var i := 1;
    tries := 0;
    while i <= MaxAttempts
      invariant 1 <= i <= MaxAttempts + 1
      invariant tries == i - 1
      invariant forall k :: 0 <= k < i - 1 ==> attempts[k] != Up
      invariant sleeps == Delays(i - 1)
      invariant i > 1 ==> err == Some(if attempts[i - 2] == OpenFails then OpenError else PingError)
    {
      tries := i;
      if attempts[i - 1] == OpenFails {
        err := Some(OpenError);
      } else {
        if attempts[i - 1] == Up {
          err := None;
          break;
        }
        err := Some(PingError);
      }
      sleeps := sleeps + [Backoff(i)];
      i := i + 1;
    }
    if err.Some? {
      outcome := Fatal(err.value);
    } else {
      outcome := Connected(tries);
    }
  }

  /** Each sleep is longer than the one before it, and the i-th is (i+1)^2 seconds. */
  lemma {:induction false} DelaysIncrease(k: nat)
    ensures forall i :: 0 <= i < k ==> Delays(k)[i] == (i + 1) * (i + 1)
    ensures forall i, j :: 0 <= i < j < k ==> Delays(k)[i] < Delays(k)[j]
  {
    if k > 0 {
      DelaysIncrease(k - 1);
      forall i, j | 0 <= i < j < k ensures Delays(k)[i] < Delays(k)[j] {
        assert (i + 1) * (i + 1) < (j + 1) * (j + 1) by {
          assert i + 1 < j + 1;
          assert (i + 1) * (i + 1) <= (i + 1) * (j + 1) < (j + 1) * (j + 1);
        }
      }
    }
  }

  /** Five failed attempts sleep 1 + 4 + 9 + 16 + 25 = 55 seconds in all. */
  lemma AllFailedSleepTotal()
    ensures Sum(Delays(MaxAttempts)) == 55
  {
    assert Delays(5) == [1, 4, 9, 16, 25];
    assert [1, 4, 9, 16, 25][..4] == [1, 4, 9, 16];
    assert [1, 4, 9, 16][..3] == [1, 4, 9];
    assert [1, 4, 9][..2] == [1, 4];
    assert [1, 4][..1] == [1];
  }
}
