/** The in-memory set of revoked tokens. */
module TokenBlacklistService {
  import opened Wrappers
  import opened Text

  /** The set after blacklisting each token of calls in turn. */
  function AfterBlacklisting(initial: set<string>, calls: seq<string>): set<string>
    decreases |calls|
  {
    if calls == [] then initial else AfterBlacklisting(initial + {calls[0]}, calls[1..])
  }

  /**
   * There is no removal: over any sequence of calls a token is revoked
   * exactly when it was revoked before or was passed to one of the calls.
   */
  lemma {:induction false} AfterBlacklistingContents(initial: set<string>, calls: seq<string>)
    ensures forall t :: t in AfterBlacklisting(initial, calls) <==> t in initial || t in calls
    decreases |calls|
  {
    if calls != [] {
      AfterBlacklistingContents(initial + {calls[0]}, calls[1..]);
      assert forall t :: t in calls <==> t == calls[0] || t in calls[1..];
    }
  }

  /** Membership only grows, and blacklisting a token twice leaves the same set as once. */
  lemma BlacklistMonotoneAndIdempotent(initial: set<string>, calls: seq<string>, t: string)
    ensures initial <= AfterBlacklisting(initial, calls)
    ensures AfterBlacklisting(initial, [t, t]) == AfterBlacklisting(initial, [t])
    ensures AfterBlacklisting(AfterBlacklisting(initial, calls), calls) == AfterBlacklisting(initial, calls)
  {
    AfterBlacklistingContents(initial, calls);
    AfterBlacklistingContents(AfterBlacklisting(initial, calls), calls);
    AfterBlacklistingContents(initial, [t, t]);
    AfterBlacklistingContents(initial, [t]);
  }

  /** The length of the prefix the log message prints. */
  const LOG_PREFIX_LENGTH: int := 10

  class TokenBlacklistService {
    var blacklistedTokens: set<string>

    constructor ()
      ensures blacklistedTokens == {}
    {
      blacklistedTokens := {};
    }

    /**
     * blacklist: the token is added first; printing its first ten
     * characters then throws StringIndexOutOfBoundsException for a
     * shorter token, after the add.
     */
    method Blacklist(token: string) returns (r: Outcome)
      modifies this
      ensures blacklistedTokens == AfterBlacklisting(old(blacklistedTokens), [token])
      ensures blacklistedTokens == old(blacklistedTokens) + {token}
      ensures r == if |token| < LOG_PREFIX_LENGTH then Fail(Internal("begin 0, end 10, length " + IntToString(|token|))) else Pass
    {
      blacklistedTokens := blacklistedTokens + {token};
      if |token| < LOG_PREFIX_LENGTH {
        return Fail(Internal("begin 0, end 10, length " + IntToString(|token|)));
      }
      return Pass;
    }

    /** isBlacklisted. */
    function IsBlacklisted(token: string): (r: bool)
      reads this
      ensures r <==> token in blacklistedTokens
    {
      token in blacklistedTokens
    }
  }
}
