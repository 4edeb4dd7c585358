/**
 Which limit applies to a request path: the loop in `RateLimitMiddleware.dispatch`
 (backend/app/middleware/security_advanced.py).
 */
module EndpointLimits {
  import opened SlidingLog

  datatype Limit = Limit(pattern: string, calls: int, window: int)

  const GENERAL := Limit("/api/v1/", 1000, 3600)

  /** The table, in its own order. */
  const LIMITS: seq<Limit> := [
    Limit("/api/v1/auth/login", 5, 60),
    Limit("/api/v1/auth/register", 3, 60),
    Limit("/api/v1/auth/forgot-password", 3, 300),
    Limit("/api/v1/auth/reset-password", 5, 300),
    Limit("/api/v1/auth/refresh", 10, 60),
    Limit("/api/v1/ai/", 20, 60),
    GENERAL]

  method SelectLimit(table: seq<Limit>, path: string) returns (limit: Limit)
    ensures limit == GENERAL || limit in table
    ensures (forall l | l in table :: !(l.pattern <= path)) ==> limit == GENERAL
    ensures forall k | 0 <= k < |table| && table[k].pattern <= path
            && (forall i | 0 <= i < k :: !(table[i].pattern <= path)) ::
      limit == table[k]
  {
    limit := GENERAL;
    for k := 0 to |table|
      invariant limit == GENERAL
      invariant forall i | 0 <= i < k :: !(table[i].pattern <= path)
    {
      if table[k].pattern <= path {
        limit := table[k];
        break;
      }
    }
  }

  /** A table is graded if a pattern never comes after one of its own prefixes. */
  ghost predicate Graded(table: seq<Limit>) {
    forall i, j | 0 <= i < j < |table| :: !(table[i].pattern <= table[j].pattern)
  }

  lemma PrefixesNest(a: string, b: string, path: string)
    requires a <= path && b <= path && |a| <= |b|
    ensures a <= b
  {
    assert a == path[..|a|] && b == path[..|b|];
    assert b[..|a|] == a;
  }

  /** In a graded table, the first pattern that matches is the longest one that does. */
  lemma FirstMatchIsLongest(table: seq<Limit>, path: string, k: nat, j: nat)
    requires Graded(table) && k < |table| && j < |table|
    requires table[k].pattern <= path && forall i | 0 <= i < k :: !(table[i].pattern <= path)
    requires table[j].pattern <= path && j != k
    ensures |table[j].pattern| < |table[k].pattern|
  {
    if |table[k].pattern| <= |table[j].pattern| {
      PrefixesNest(table[k].pattern, table[j].pattern, path);
    }
  }

  /** The table of the middleware is graded, so each path gets the limit of its most specific pattern. */
  lemma LimitsAreGraded()
    ensures Graded(LIMITS)
  {
    forall i, j | 0 <= i < j < |LIMITS|
      ensures !(LIMITS[i].pattern <= LIMITS[j].pattern)
    {
      if LIMITS[i].pattern <= LIMITS[j].pattern {
        assert forall k | 0 <= k < |LIMITS[i].pattern| :: LIMITS[i].pattern[k] == LIMITS[j].pattern[k];
        Apart(i, j);
      }
    }
  }

  /** The endpoints of a table, without their patterns. */
  ghost function EndpointsOf(table: seq<Limit>): set<Endpoint> {
    set l | l in table :: Endpoint(l.calls, l.window)
  }

  /** Of the middleware's endpoints, exactly those with the shortest window, a minute, always count right. */
  lemma ExactEndpoints(limit: Limit)
    requires limit in LIMITS
    ensures AlwaysExact(EndpointsOf(LIMITS), Endpoint(limit.calls, limit.window)) <==> limit.window == 60
  {
    var table, endpoint := EndpointsOf(LIMITS), Endpoint(limit.calls, limit.window);
    assert forall l | l in LIMITS :: l.window >= 60 && l.calls > 1;
    ExactIffUndisturbed(table, endpoint);
    var login := LIMITS[0];
    assert login in LIMITS && Endpoint(login.calls, login.window) in table;
    if limit.window > 60 {
      assert Disturbs(Endpoint(login.calls, login.window), endpoint);
    }
  }

  /** A position at which two patterns of the table differ. */
  lemma Apart(i: nat, j: nat)
    requires i < j < |LIMITS|
    ensures |LIMITS[i].pattern| > |LIMITS[j].pattern|
            || exists k :: 0 <= k < |LIMITS[i].pattern| && LIMITS[i].pattern[k] != LIMITS[j].pattern[k]
  {
    if j < 6 {
      if i < 5 && j < 5 {
        // "/api/v1/auth/" is followed by l, re, f or re
        var k := if (i == 1 || i == 3) && (j == 3 || j == 4) then 15 else 13;
        assert LIMITS[i].pattern[k] != LIMITS[j].pattern[k];
      } else {
        assert LIMITS[i].pattern[9] != LIMITS[j].pattern[9];
      }
    }
  }
}
