/**
 Derived settings of apps/api/src/config.ts and the leases of apps/api/src/worker.ts: the execution
 time budgets and their boot check, the public MCP URL, the proxy trust setting.
 */
module Config {
  import opened JsText
  import opened Decimals
  import opened JobQueue
  import opened ClaimPlan
  import opened Workers

  // ---- execution time budgets ----

  function GetNumber(raw: real, min: real, max: real): Option<real> {
    if raw < min || raw > max then None else Some(raw)
  }

  function ChildTimeout(timeout: real): int { (timeout * 0.4).Floor }

  function ProbeTimeout(timeout: real): int { Min(5_000, (timeout * 0.15).Floor) }

  function SandboxLifetime(timeout: real): real { timeout + 30_000.0 }

  /** What has to hold for the process to boot. */
  predicate BootCheck(timeout: real) {
    var child, probe := ChildTimeout(timeout) as real, ProbeTimeout(timeout) as real;
    child < timeout && 2.0 * child + probe < timeout && timeout < SandboxLifetime(timeout)
  }

  /** The derived budgets fit every positive command budget, so no accepted setting fails the check. */
  lemma BudgetsFit(timeout: real)
    ensures timeout > 0.0 ==> BootCheck(timeout)
    ensures GetNumber(timeout, 5_000.0, 600_000.0).Some? ==> BootCheck(timeout)
  {}

  /**
   And nothing is given away: a child has 40 % of the budget but for less than a millisecond; a probe has 15 %, or
   five seconds if that is less; the sandbox outlives the command by half a minute; and a setting is refused only
   outside its bounds.
  */
  lemma BudgetsTight(timeout: real, min: real, max: real)
    ensures timeout * 0.4 - 1.0 < ChildTimeout(timeout) as real <= timeout * 0.4
    ensures timeout * 0.15 >= 5_000.0 ==> ProbeTimeout(timeout) == 5_000
    ensures timeout * 0.15 < 5_000.0 ==> timeout * 0.15 - 1.0 < ProbeTimeout(timeout) as real <= timeout * 0.15
    ensures SandboxLifetime(timeout) - timeout == 30_000.0
    ensures GetNumber(timeout, min, max) == Some(timeout) <==> min <= timeout <= max
  {}

  // ---- leases ----

  const LLM_ALLOWANCE_MS := 60_000
  const MAX_PROOF_SAMPLES := 10

  function ProviderSlots(providers: nat): nat { Max(1, providers) }

  function Ceiling(x: real): int { -((-x).Floor) }

  /** Time in the sandbox: each configured provider in turn, each up to the command budget. */
  function SandboxTime(timeout: real, providers: nat): real {
    timeout * ProviderSlots(providers) as real
  }

  /** A lease is stored as a `Date`, in whole milliseconds. */
  function ValidationLease(timeout: real, providers: nat): int {
    var derived := (SandboxTime(timeout, providers) + timeout) * 2.0 + LLM_ALLOWANCE_MS as real;
    (if derived <= 300_000.0 then 300_000.0 else derived).Floor
  }

  function ProofLease(timeout: real): int {
    (MAX_PROOF_SAMPLES as real * timeout * 2.0).Floor
  }

  /** The sandbox, then the review stage. */
  function ValidationWorstCase(timeout: real, providers: nat): int {
    Ceiling(SandboxTime(timeout, providers) + LLM_ALLOWANCE_MS as real)
  }

  function ProofWorstCase(timeout: real): int {
    Ceiling(MAX_PROOF_SAMPLES as real * timeout)
  }

  lemma LeasesCover(timeout: real, providers: nat)
    requires timeout >= 1.0
    ensures 0 <= ValidationWorstCase(timeout, providers) < ValidationLease(timeout, providers)
    ensures 0 <= ProofWorstCase(timeout) < ProofLease(timeout)
  {
    AtLeast(timeout, ProviderSlots(providers) as real);
    hide SandboxTime;
  }

  /**
   How long the leases are: each further provider adds two command budgets to a validation's, which for one provider
   is four and the review allowance, but at least five minutes; a proof's is twice its worst case. All but for
   less than a millisecond of rounding.
  */
  lemma LeasesTight(timeout: real, providers: nat)
    requires timeout >= 1.0
    ensures ValidationLease(timeout, 0) == ValidationLease(timeout, 1)
    ensures ValidationLease(timeout, 1) == Max(300_000, (4.0 * timeout).Floor + 60_000)
    ensures providers >= 1 && ValidationLease(timeout, providers) > 300_000 ==>
              var more := (ValidationLease(timeout, providers + 1) - ValidationLease(timeout, providers)) as real;
              2.0 * timeout - 1.0 < more < 2.0 * timeout + 1.0
    ensures ProofWorstCase(timeout) * 2 - 2 <= ProofLease(timeout) <= ProofWorstCase(timeout) * 2
  {
    if providers >= 1 {
      var slots := providers as real;
      assert timeout * (slots + 1.0) == timeout * slots + timeout;
      assert (providers + 1) as real == slots + 1.0;
      AtLeast(timeout, slots);
    }
  }

  lemma AtLeast(timeout: real, slots: real)
    requires timeout >= 0.0 && slots >= 1.0
    ensures timeout * slots >= timeout
  {
    assert timeout * slots == timeout + timeout * (slots - 1.0);
  }

  /** A type whose lease in the table outlasts its work is covered by the plan, whatever the other leases are. */
  lemma PlanCovers(table: seq<Entry>, limit: JobType -> int, e: Entry)
    requires IsTable(table) && e in table && 0 <= limit(e.kind) < e.lease
    ensures Covers(Setup(Plan(table), limit), e.kind)
  {
    PlanPartitions(table);
    var plan := Plan(table);
    forall g | 0 <= g < |plan| && e.kind in plan[g].types ensures plan[g].lease == e.lease {
      assert Entry(e.kind, plan[g].lease) in table;
    }
  }

  /**
   With the leases the worker derives, no validation and no proof run is ever handled twice at once: in any
   interleaving of workers, abandoned work and producers in which validations take at most the sandbox time of
   every provider plus the review allowance, and proofs at most ten sandbox runs. Nothing is asked of the other
   types: their leases and the time their work takes are arbitrary.
   */
  lemma ValidationNeverDoubled(
      table: seq<Entry>, limit: JobType -> int, timeout: real, providers: nat,
      jobs: seq<Job>, now: int, steps: seq<Step>)
    requires timeout >= 1.0 && IsTable(table)
    ensures var end := Run(Setup(Plan(table), limit), true, System(jobs, now, map[]), steps);
            && (&& Entry("validation.run", ValidationLease(timeout, providers)) in table
                && 0 <= limit("validation.run") <= ValidationWorstCase(timeout, providers)
                ==> Exclusive(end, "validation.run"))
            && (&& Entry("harness.proof_run", ProofLease(timeout)) in table
                && 0 <= limit("harness.proof_run") <= ProofWorstCase(timeout)
                ==> Exclusive(end, "harness.proof_run"))
  {
    LeasesCover(timeout, providers);
    hide ValidationLease, ValidationWorstCase, ProofLease, ProofWorstCase, Plan, Covers, Exclusive, Run;
    var validation := Entry("validation.run", ValidationLease(timeout, providers));
    var proof := Entry("harness.proof_run", ProofLease(timeout));
    if validation in table && 0 <= limit(validation.kind) <= ValidationWorstCase(timeout, providers) {
      NeverDoubled(table, limit, validation, jobs, now, steps);
    }
    if proof in table && 0 <= limit(proof.kind) <= ProofWorstCase(timeout) {
      NeverDoubled(table, limit, proof, jobs, now, steps);
    }
  }

  lemma NeverDoubled(table: seq<Entry>, limit: JobType -> int, e: Entry, jobs: seq<Job>, now: int, steps: seq<Step>)
    requires IsTable(table) && e in table && 0 <= limit(e.kind) < e.lease
    ensures Exclusive(Run(Setup(Plan(table), limit), true, System(jobs, now, map[]), steps), e.kind)
  {
    PlanCovers(table, limit, e);
    OneWorkerPerJob(Setup(Plan(table), limit), System(jobs, now, map[]), e.kind, steps);
  }

  // ---- the public MCP URL ----

  const SLASH: Unit := 0x2F
  const MCP_RESOURCE_PATH: Text := [0x2F, 0x6D, 0x63, 0x70]

  /** `s.replace(/\/+$/, "")`. */
  function StripSlashes(s: Text): (r: Text)
    ensures |r| <= |s| && r == s[..|r|]
    ensures r != [] ==> r[|r| - 1] != SLASH
  {
    if s != [] && s[|s| - 1] == SLASH then StripSlashes(s[..|s| - 1]) else s
  }

  predicate EndsWith(s: Text, suffix: Text) {
    |suffix| <= |s| && s[|s| - |suffix|..] == suffix
  }

  function NormalizeMcpPublicUrl(raw: Text): Text {
    var trimmed := StripSlashes(Trim(raw));
    if EndsWith(trimmed, MCP_RESOURCE_PATH) then StripSlashes(trimmed[..|trimmed| - |MCP_RESOURCE_PATH|]) else trimmed
  }

  function Slashes(n: nat): Text {
    if n == 0 then [] else Slashes(n - 1) + [SLASH]
  }

  lemma {:induction false} StripAppended(s: Text, n: nat)
    requires s != [] ==> s[|s| - 1] != SLASH
    ensures StripSlashes(s + Slashes(n)) == s
  {
    if n == 0 {
      assert s + [] == s;
    } else {
      Assoc(s, Slashes(n - 1), [SLASH]);
      StripAppended(s, n - 1);
      var t := s + Slashes(n - 1);
      assert (t + [SLASH])[..|t|] == t;
    }
  }

  /** An origin as an operator writes it: no surrounding space, no trailing slash, not the endpoint itself. */
  predicate IsOrigin(o: Text) {
    o != [] && Trimmed(o) && o[|o| - 1] != SLASH && !EndsWith(o, MCP_RESOURCE_PATH)
  }

  lemma SlashesTrimmed(o: Text, n: nat)
    requires o != [] && Trimmed(o)
    ensures Trimmed(o + Slashes(n))
  {
  }

  /** The setting without outer space and trailing slashes, and without the slashes before one `/mcp` at its end. */
  function Bare(raw: Text): Text { StripSlashes(Trim(raw)) }

  function BeforePath(t: Text): (p: Text)
    requires EndsWith(t, MCP_RESOURCE_PATH)
    ensures |p| < |t| && (p != [] ==> p[|p| - 1] != SLASH)
  {
    StripSlashes(t[..|t| - |MCP_RESOURCE_PATH|])
  }

  lemma Unfolded(raw: Text)
    ensures var t := Bare(raw);
            NormalizeMcpPublicUrl(raw) == if EndsWith(t, MCP_RESOURCE_PATH) then BeforePath(t) else t
  {
    hide Trim, StripSlashes, EndsWith;
  }

  lemma BareOf(e: Text, m: nat)
    requires e != [] && Trimmed(e) && e[|e| - 1] != SLASH
    ensures Bare(e + Slashes(m)) == e
  {
    SlashesTrimmed(e, m);
    TrimmedIsFixed(e + Slashes(m));
    StripAppended(e, m);
    hide Trim, Trimmed, StripSlashes, Slashes;
  }

  lemma WithPath(t: Text)
    requires t != [] && Trimmed(t)
    ensures var e := t + MCP_RESOURCE_PATH;
            && Trimmed(e) && e[|e| - 1] != SLASH
            && EndsWith(e, MCP_RESOURCE_PATH) && e[..|e| - |MCP_RESOURCE_PATH|] == t
  {
  }

  /** Both spellings of the setting, with any slashes, give the origin. */
  lemma OriginRecovered(o: Text, n: nat, m: nat)
    requires IsOrigin(o)
    ensures NormalizeMcpPublicUrl(o + Slashes(n)) == o
    ensures NormalizeMcpPublicUrl(o + Slashes(n) + MCP_RESOURCE_PATH + Slashes(m)) == o
  {
    var e := o + Slashes(n) + MCP_RESOURCE_PATH;
    SlashesTrimmed(o, n);
    WithPath(o + Slashes(n));
    StripAppended(o, n);
    BareOf(o, n);
    BareOf(e, m);
    hide Bare, Trimmed, EndsWith, StripSlashes, Slashes, NormalizeMcpPublicUrl;
    Unfolded(o + Slashes(n));
    Unfolded(e + Slashes(m));
  }

  lemma BareShorter(u: Text)
    ensures |Bare(u)| <= |u| && (!Trimmed(u) ==> |Bare(u)| < |u|)
    ensures Trimmed(u) && (u != [] ==> u[|u| - 1] != SLASH) ==> Bare(u) == u
  {
    TrimmedIsFixed(u);
    var i := TrimIsPart(u);
    hide Trim, Trimmed;
    assert |Trim(u)| == |u| ==> i == 0 && Trim(u) == u;
  }

  /** A text that ends in no slash is a fixed point exactly if it has no outer space and does not end in `/mcp`. */
  lemma FixedPoint(u: Text)
    requires u != [] ==> u[|u| - 1] != SLASH
    ensures NormalizeMcpPublicUrl(u) == u <==> Trimmed(u) && !EndsWith(u, MCP_RESOURCE_PATH)
  {
    hide Trimmed, EndsWith, Bare, NormalizeMcpPublicUrl;
    Unfolded(u);
    BareShorter(u);
  }

  /**
   Never a trailing slash. And one pass is enough exactly when the setting, stripped of outer space and
   trailing slashes, has no space left at its end and does not end in a path that hides another space or `/mcp`.
  */
  lemma NormalizedUrl(raw: Text)
    ensures var u, t := NormalizeMcpPublicUrl(raw), Bare(raw);
            && (u != [] ==> u[|u| - 1] != SLASH)
            && (NormalizeMcpPublicUrl(u) == u <==>
                  if EndsWith(t, MCP_RESOURCE_PATH)
                  then Trimmed(BeforePath(t)) && !EndsWith(BeforePath(t), MCP_RESOURCE_PATH)
                  else Trimmed(t))
  {
    hide Trim, Trimmed, EndsWith, NormalizeMcpPublicUrl;
    Unfolded(raw);
    FixedPoint(NormalizeMcpPublicUrl(raw));
  }

  /** White space around the setting makes no difference. */
  lemma OuterSpaceIgnored(a: Text, raw: Text, b: Text)
    requires Blank(a) && Blank(b)
    ensures NormalizeMcpPublicUrl(a + raw + b) == NormalizeMcpPublicUrl(raw)
    ensures ParseTrustProxy(Some(a + raw + b)) == ParseTrustProxy(Some(raw))
  {
    TrimIgnores(a, raw, b);
    SameTrimmed(a + raw + b, raw);
  }

  lemma SameTrimmed(s: Text, t: Text)
    requires Trim(s) == Trim(t)
    ensures NormalizeMcpPublicUrl(s) == NormalizeMcpPublicUrl(t)
    ensures ParseTrustProxy(Some(s)) == ParseTrustProxy(Some(t))
  {
    assert Bare(s) == Bare(t);
    hide *;
    Unfolded(s);
    Unfolded(t);
    TrustOfTrimmed(s, t);
  }

  lemma TrustOfTrimmed(s: Text, t: Text)
    requires Trim(s) == Trim(t)
    ensures ParseTrustProxy(Some(s)) == ParseTrustProxy(Some(t))
  {
    hide Trim, IsWord, IsPositiveDecimal, DecimalValue;
  }

  lemma OnePathRemoved(t: Text)
    requires t != [] && Trimmed(t) && t[|t| - 1] != SLASH
    ensures NormalizeMcpPublicUrl(t + MCP_RESOURCE_PATH) == t
  {
    var e := t + MCP_RESOURCE_PATH;
    WithPath(t);
    BareOf(e, 0);
    StripAppended(t, 0);
    assert e + Slashes(0) == e && t + Slashes(0) == t;
    hide Bare, Trimmed, EndsWith, StripSlashes, Slashes, NormalizeMcpPublicUrl;
    Unfolded(e);
  }

  /** One pass is not always enough. */
  lemma DoubledPathKeepsOne(o: Text)
    requires IsOrigin(o)
    ensures NormalizeMcpPublicUrl(o + MCP_RESOURCE_PATH + MCP_RESOURCE_PATH) == o + MCP_RESOURCE_PATH
  {
    WithPath(o);
    hide NormalizeMcpPublicUrl, Trimmed;
    OnePathRemoved(o + MCP_RESOURCE_PATH);
  }

  // ---- TRUST_PROXY ----

  datatype Trust = Flag(b: bool) | Hops(n: nat) | Addresses(list: Text)

  const FALSE_WORD: Text := [0x66, 0x61, 0x6C, 0x73, 0x65]
  const TRUE_WORD: Text := [0x74, 0x72, 0x75, 0x65]

  function Lower(u: Unit): Unit { if 0x41 <= u <= 0x5A then u + 0x20 else u }

  predicate IsWord(s: Text, word: Text) {
    |s| == |word| && forall i :: 0 <= i < |s| ==> Lower(s[i]) == word[i]
  }

  function ParseTrustProxy(raw: Option<Text>): Trust {
    var value := Trim(match raw case None => [] case Some(s) => s);
    if value == [] || IsWord(value, FALSE_WORD) || value == [0x30] then Flag(false)
    else if IsWord(value, TRUE_WORD) then Flag(true)
    else if IsPositiveDecimal(value) then Hops(DecimalValue(value))
    else Addresses(value)
  }

  /** A hop count is kept as that count: exactly the decimal texts of the positive numbers are hop counts. */
  lemma HopCounts(raw: Text, n: nat)
    requires n > 0
    ensures ParseTrustProxy(Some(raw)) == Hops(n) <==> Trim(raw) == Decimal(n)
  {
    var value := Trim(raw);
    if value == Decimal(n) {
      DecimalIs(n);
      assert IsDigit(value[0]);
    }
    if ParseTrustProxy(Some(raw)) == Hops(n) {
      DecimalOf(value);
    }
  }

  /** A word in upper or lower case or any mixture. */
  predicate Spells(s: Text, lower: Text, upper: Text)
    requires |lower| == |upper|
  {
    |s| == |lower| && forall i :: 0 <= i < |s| ==> s[i] == lower[i] || s[i] == upper[i]
  }

  const FALSE_UPPER: Text := [0x46, 0x41, 0x4C, 0x53, 0x45]
  const TRUE_UPPER: Text := [0x54, 0x52, 0x55, 0x45]

  /** `false`, `0` and nothing trust no proxy, `true` trusts all; what is no hop count either is a list as written. */
  lemma TrustExactly(raw: Option<Text>)
    ensures var value := if raw.Some? then Trim(raw.value) else [];
            && (ParseTrustProxy(raw) == Flag(false) <==>
                  value == [] || value == [0x30] || Spells(value, FALSE_WORD, FALSE_UPPER))
            && (ParseTrustProxy(raw) == Flag(true) <==> Spells(value, TRUE_WORD, TRUE_UPPER))
            && (ParseTrustProxy(raw).Addresses? ==> ParseTrustProxy(raw) == Addresses(value))
            && (ParseTrustProxy(raw).Hops? <==> IsPositiveDecimal(value))
  {
    var value := if raw.Some? then Trim(raw.value) else [];
    assert Trim([]) == [];
    Spelled(value, FALSE_WORD, FALSE_UPPER);
    Spelled(value, TRUE_WORD, TRUE_UPPER);
    Apart(value);
    hide Trim, IsWord, Spells, IsPositiveDecimal, DecimalValue;
  }

  /** No text is two of: nought, a positive decimal, `false`, `true`, nothing. */
  lemma Apart(s: Text)
    ensures IsPositiveDecimal(s) ==> s != [] && s != [0x30] && !Spells(s, FALSE_WORD, FALSE_UPPER)
    ensures IsPositiveDecimal(s) ==> !Spells(s, TRUE_WORD, TRUE_UPPER)
    ensures Spells(s, TRUE_WORD, TRUE_UPPER) ==> |s| == 4
    ensures Spells(s, FALSE_WORD, FALSE_UPPER) ==> |s| == 5
  {
    if IsPositiveDecimal(s) { assert IsDigit(s[0]); }
  }

  lemma Spelled(s: Text, lower: Text, upper: Text)
    requires |lower| == |upper|
    requires forall i :: 0 <= i < |lower| ==> 0x61 <= lower[i] <= 0x7A && upper[i] == lower[i] - 0x20
    ensures IsWord(s, lower) <==> Spells(s, lower, upper)
  {
  }
}
