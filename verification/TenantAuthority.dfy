/** Tenant rows under the security-version trigger, and the worker envelopes minted from them. */
module TenantAuthority {

  datatype Result<+T> = Ok(value: T) | Err

  datatype Tenant = Tenant(id: nat, code: string, status: string, lifecycle: string, bootstrap: int, version: int)

  const STATUS_ENABLED := "1"
  const STATUS_DISABLED := "2"

  /** The facts a change of which must invalidate minted authority. */
  predicate SameSecurity(a: Tenant, b: Tenant) {
    a.status == b.status && a.lifecycle == b.lifecycle && a.bootstrap == b.bootstrap
  }

  /** bump_sys_tenant_security_version: BEFORE UPDATE on one row. */
  function Trigger(before: Tenant, after: Tenant): (r: Result<Tenant>) {
    if after.code != before.code then Err
    else if !SameSecurity(after, before) then Ok(after.(version := before.version + 1))
    else if after.version < before.version then Err
    else Ok(after)
  }

  predicate Alphanumeric(c: char) { 'a' <= c <= 'z' || '0' <= c <= '9' }

  /** Two to 32 lower-case letters, digits and hyphens, without a hyphen at either end. */
  predicate CodeFormat(code: string) {
    && 2 <= |code| <= 32 && Alphanumeric(code[0]) && Alphanumeric(code[|code| - 1])
    && forall i :: 0 <= i < |code| ==> Alphanumeric(code[i]) || code[i] == '-'
  }

  /** The table's check constraints, as far as they speak of the columns modelled. */
  predicate Checked(t: Tenant) {
    && t.version >= 1
    && CodeFormat(t.code)
    && (t.status == STATUS_ENABLED || t.status == STATUS_DISABLED)
    && ((t.lifecycle == "active" && t.status == STATUS_ENABLED)
        || ((t.lifecycle == "prepared" || t.lifecycle == "disabled") && t.status == STATUS_DISABLED))
    && (t.id == 0 ==> t.bootstrap == 1) && (t.id != 0 ==> t.bootstrap == 0 || t.bootstrap == 1)
    && (t.lifecycle == "active" ==> t.bootstrap >= 1)
  }

  /** Physical rows, in order of insertion: an update keeps a row's place, even one of its key. */
  type Table = seq<Tenant>

  ghost predicate Unique(rows: Table) {
    forall i, j :: 0 <= i < j < |rows| ==> rows[i].id != rows[j].id && rows[i].code != rows[j].code
  }

  predicate Admissible(rows: Table, t: Tenant, at: nat) {
    Checked(t) && forall i :: 0 <= i < |rows| && i != at ==> rows[i].id != t.id && rows[i].code != t.code
  }

  datatype Attempt = Insert(row: Tenant) | Update(at: nat, to: Tenant)

  /** What one attempted statement leaves; a refused one leaves the table as it was. */
  function After(rows: Table, a: Attempt): (rows': Table) {
    match a
    case Insert(row) => if Admissible(rows, row, |rows|) then rows + [row] else rows
    case Update(at, to) =>
      if at >= |rows| then rows
      else
        var r := Trigger(rows[at], to);
        if r.Ok? && Admissible(rows, r.value, at) then rows[at := r.value] else rows
  }

  /** A statement goes through and leaves `rows'`: an insert of an admissible row, or an update that keeps the
      code, of a row that stays admissible with the version it gets: the next one when status, lifecycle or
      bootstrap change, else the one given, which may not be lower. */
  ghost predicate Accepted(rows: Table, a: Attempt, rows': Table) {
    match a
    case Insert(row) =>
      && Checked(row) && rows' == rows + [row]
      && forall i :: 0 <= i < |rows| ==> rows[i].id != row.id && rows[i].code != row.code
    case Update(at, to) =>
      && at < |rows| && to.code == rows[at].code
      && var old_ := rows[at];
      && var same := (to.status, to.lifecycle, to.bootstrap) == (old_.status, old_.lifecycle, old_.bootstrap);
      && (same ==> to.version >= rows[at].version)
      && var row := to.(version := if same then to.version else rows[at].version + 1);
      && Checked(row) && rows' == rows[at := row]
      && forall i :: 0 <= i < |rows| && i != at ==> rows[i].id != row.id && rows[i].code != row.code
  }

  class TenantTable {
    var rows: Table

    constructor ()
      ensures rows == [] && Unique(rows)
    {
      rows := [];
    }

    method Attempted(a: Attempt) returns (ok: bool)
      requires Unique(rows)
      modifies this
      ensures Unique(rows) && rows == After(old(rows), a)
      ensures if ok then Accepted(old(rows), a, rows) else rows == old(rows) && forall t :: !Accepted(old(rows), a, t)
    {
      match a {
        case Insert(row) =>
          ok := Admissible(rows, row, |rows|);
          if ok { rows := rows + [row]; }
        case Update(at, to) =>
          if at >= |rows| { return false; }
          var r := Trigger(rows[at], to);
          ok := r.Ok? && Admissible(rows, r.value, at);
          if ok { rows := rows[at := r.value]; }
      }
    }
  }

  /** The table after the first `n` attempts of a history. */
  function TableAt(history: seq<Attempt>, n: nat): (rows: Table)
    requires n <= |history|
  {
    if n == 0 then [] else After(TableAt(history, n - 1), history[n - 1])
  }

  lemma {:induction false} AlwaysUnique(history: seq<Attempt>, n: nat)
    requires n <= |history|
    ensures Unique(TableAt(history, n))
  {
    if n > 0 { AlwaysUnique(history, n - 1); }
  }

  /** From one moment to a later one a row keeps its code; its version never falls, and rises
      whenever its security facts differ. */
  lemma {:induction false} VersionsRise(history: seq<Attempt>, i: nat, j: nat, k: nat)
    requires i <= j <= |history| && k < |TableAt(history, i)|
    ensures k < |TableAt(history, j)|
    ensures var a, b := TableAt(history, i)[k], TableAt(history, j)[k];
      b.code == a.code && b.version >= a.version && (b.version == a.version ==> SameSecurity(a, b))
    decreases j
  {
    if i < j { VersionsRise(history, i, j - 1, k); }
  }

  /** Over every history an enabled row is an active, bootstrapped one, and a disabled one is not active. */
  lemma {:induction false} EnabledIsActive(history: seq<Attempt>, n: nat, k: nat)
    requires n <= |history| && k < |TableAt(history, n)|
    ensures var t := TableAt(history, n)[k];
      && (t.status == "1" <==> t.lifecycle == "active") && (t.status == "1" ==> t.bootstrap == 1)
      && (t.status == "2" <==> t.lifecycle == "prepared" || t.lifecycle == "disabled")
      && t.version >= 1 && 2 <= |t.code| <= 32
  {
    AlwaysChecked(history, n, k);
  }

  lemma {:induction false} AlwaysChecked(history: seq<Attempt>, n: nat, k: nat)
    requires n <= |history| && k < |TableAt(history, n)|
    ensures Checked(TableAt(history, n)[k])
  {
    if n > 0 && k < |TableAt(history, n - 1)| { AlwaysChecked(history, n - 1, k); }
  }

  // ------------------------------------------------------------------ authority derived from a row

  datatype Source = AccessToken | WorkerEnvelope | PlatformControl

  datatype Context = Context(tenant: nat, code: string, actor: nat, version: int, source: Source)

  datatype Envelope = Envelope(
    tenant: nat, code: string, actor: nat, version: int, job: string, scope: string, signature: string)

  /** HMAC of a payload under a secret. */
  type Mac = (string, Envelope) -> string

  ghost predicate MacInjective(sign: Mac) {
    forall secret, a, b :: sign(secret, a) == sign(secret, b) ==> a == b
  }

  function Signature(sign: Mac, secret: string, e: Envelope): (s: string) {
    sign(secret, e.(signature := ""))
  }

  /** create_worker_envelope. */
  function Mint(sign: Mac, secret: string, c: Context, job: string, scope: string): (r: Result<Envelope>) {
    if job == "" || scope == "" || c.source.PlatformControl? then Err
    else
      var e := Envelope(c.tenant, c.code, c.actor, c.version, job, scope, "");
      Ok(e.(signature := Signature(sign, secret, e)))
  }

  /** is_tenant_runtime_enabled. */
  predicate RuntimeEnabled(tenant: nat, hosted: bool) { tenant == 0 || hosted }

  /** revalidate_worker_envelope against the row loaded now. */
  function Revalidate(sign: Mac, secret: string, e: Envelope, live: Tenant, hosted: bool): (r: Result<Context>) {
    if e.signature != Signature(sign, secret, e) then Err
    else if !RuntimeEnabled(e.tenant, hosted) then Err
    else if (live.id, live.code, live.version) != (e.tenant, e.code, e.version) then Err
    else if live.status != STATUS_ENABLED then Err
    else Ok(Context(e.tenant, e.code, e.actor, e.version, WorkerEnvelope))
  }

  /** The authority a request holds over row `t`. */
  predicate DerivedFrom(c: Context, t: Tenant) {
    c.tenant == t.id && c.code == t.code && c.version == t.version
  }

  /** An envelope minted from a row at time `i` that revalidates at time `j` meets the same physical
      row, and at no time in between did its status, lifecycle, bootstrap or code differ: being
      disabled and enabled again is noticed, as is another row moving to its id. */
  lemma EnvelopeSeesNoChange(sign: Mac, secret: string, history: seq<Attempt>, i: nat, j: nat, k: nat, m: nat,
                             c: Context, e: Envelope, live: Tenant, hosted: bool)
    requires i <= m <= j <= |history| && k < |TableAt(history, i)|
    requires DerivedFrom(c, TableAt(history, i)[k])
    requires e.tenant == c.tenant && e.code == c.code && e.version == c.version
    requires live in TableAt(history, j) && Revalidate(sign, secret, e, live, hosted).Ok?
    ensures k < |TableAt(history, j)| && live == TableAt(history, j)[k]
    ensures k < |TableAt(history, m)|
    ensures var a, b := TableAt(history, i)[k], TableAt(history, m)[k];
      SameSecurity(a, b) && a.code == b.code && a.version == b.version && b.status == STATUS_ENABLED
  {
    VersionsRise(history, i, j, k);
    VersionsRise(history, i, m, k);
    VersionsRise(history, m, j, k);
    AlwaysUnique(history, j);
    var n :| 0 <= n < |TableAt(history, j)| && TableAt(history, j)[n] == live;
    assert n == k;
  }

  /** A revalidated envelope carries exactly the authority it was minted from; it may be minted again,
      never from a platform-derived context. */
  lemma RevalidationReturnsAuthority(
    sign: Mac, secret: string, c: Context, job: string, scope: string, live: Tenant, hosted: bool)
    ensures var minted := Mint(sign, secret, c, job, scope);
      && (minted.Ok? <==> job != "" && scope != "" && !c.source.PlatformControl?)
      && (minted.Ok? ==>
            var r := Revalidate(sign, secret, minted.value, live, hosted);
            && (r.Ok? <==>
                  (c.tenant == 0 || hosted) && live.status == "1"
                  && live.id == c.tenant && live.code == c.code && live.version == c.version)
            && (r.Ok? ==> r.value == c.(source := WorkerEnvelope) && Mint(sign, secret, r.value, job, scope) == minted))
  {
    var minted := Mint(sign, secret, c, job, scope);
    if minted.Ok? {
      assert minted.value.(signature := "") == Envelope(c.tenant, c.code, c.actor, c.version, job, scope, "");
    }
  }

  /** With an injective MAC no field of a minted envelope can be altered under its signature. */
  lemma AlteredEnvelopeFails(sign: Mac, secret: string, c: Context, job: string, scope: string,
                             e: Envelope, live: Tenant, hosted: bool)
    requires MacInjective(sign) && Mint(sign, secret, c, job, scope).Ok?
    requires e.signature == Mint(sign, secret, c, job, scope).value.signature
    requires Revalidate(sign, secret, e, live, hosted).Ok?
    ensures e == Mint(sign, secret, c, job, scope).value
  {
    var minted := Mint(sign, secret, c, job, scope).value;
    assert sign(secret, e.(signature := "")) == sign(secret, minted.(signature := ""));
    assert e == e.(signature := "").(signature := e.signature);
  }

  function ActiveTenant(version: int): (t: Tenant) { Tenant(7, "ab", "1", "active", 1, version) }

  function DisabledTenant(version: int): (t: Tenant) { Tenant(7, "ab", "2", "disabled", 1, version) }

  /** Disabling a tenant and enabling it again, whatever version the statements ask for, leaves the same row
      two versions later, and no envelope minted before revalidates against it. */
  lemma ReenabledIsNoticed(sign: Mac, secret: string, c: Context, job: string, scope: string, hosted: bool)
    requires DerivedFrom(c, ActiveTenant(1)) && Mint(sign, secret, c, job, scope).Ok?
    ensures var history := [Insert(ActiveTenant(1)), Update(0, DisabledTenant(0)), Update(0, ActiveTenant(0))];
      TableAt(history, 2) == [DisabledTenant(2)] && TableAt(history, 3) == [ActiveTenant(3)]
    ensures Revalidate(sign, secret, Mint(sign, secret, c, job, scope).value, ActiveTenant(3), hosted).Err?
  {
    var history := [Insert(ActiveTenant(1)), Update(0, DisabledTenant(0)), Update(0, ActiveTenant(0))];
    assert TableAt(history, 0) == [];
    assert TableAt(history, 1) == [ActiveTenant(1)];
    assert TableAt(history, 2) == [DisabledTenant(2)];
    RevalidationReturnsAuthority(sign, secret, c, job, scope, ActiveTenant(3), hosted);
  }
}
