/** The tenant isolation audit's row digests: canonical JSON, the streamed hash, and the comparison of a
    table's whole reading with its tenant-scoped one. Text stands for its UTF-8 bytes. */
module IdentityDigest {
  import opened Options
  import opened Text

  // ------------------------------------------------------------------ canonical JSON

  datatype Json = Null | Str(text: string) | List(items: seq<Json>)

  function Hex(d: nat): (c: char)
    requires d < 16
  {
    if d < 10 then '0' + d as char else 'a' + (d - 10) as char
  }

  /** One character inside a JSON string. */
  function Escape(c: char): (s: string)
    ensures s != "" && s[0] != '"'
  {
    if c == '"' then ['\\', '"']
    else if c == '\\' then ['\\', '\\']
    else if c == '\n' then ['\\', 'n']
    else if c == '\r' then ['\\', 'r']
    else if c == '\t' then ['\\', 't']
    else if c == '\U{0008}' then ['\\', 'b']
    else if c == '\U{000c}' then ['\\', 'f']
    else if c < ' ' then ['\\', 'u', '0', '0', Hex(c as int / 16), Hex(c as int % 16)]
    else [c]
  }

  /** A string's characters and its closing quote. */
  function Body(t: string): (s: string) {
    if t == "" then ['"'] else Escape(t[0]) + Body(t[1..])
  }

  /** The items and the closing bracket of a list. */
  function Items(items: seq<Json>, first: bool): (s: string)
    decreases items, 1
  {
    if items == [] then [']']
    else (if first then [] else [',']) + Encode(items[0]) + Items(items[1..], false)
  }

  function Encode(j: Json): (s: string)
    ensures s != "" && s[0] != ']' && s[0] != ','
    decreases j, 0
  {
    match j
    case Null => ['n', 'u', 'l', 'l']
    case Str(t) => ['"'] + Body(t)
    case List(items) => ['['] + Items(items, true)
  }

  lemma EscapeIsPrefixFree(a: char, b: char, x: string, y: string)
    requires Escape(a) + x == Escape(b) + y
    ensures a == b && x == y
  {
    var s, t := Escape(a) + x, Escape(b) + y;
    assert s[0] == Escape(a)[0] && t[0] == Escape(b)[0];
    if |Escape(a)| > 1 && |Escape(b)| > 1 {
      assert s[1] == Escape(a)[1] && t[1] == Escape(b)[1];
      if |Escape(a)| == 6 && |Escape(b)| == 6 {
        assert s[4] == Escape(a)[4] && t[4] == Escape(b)[4];
        assert s[5] == Escape(a)[5] && t[5] == Escape(b)[5];
      }
    }
    assert a == b;
    assert x == s[|Escape(a)|..] && y == t[|Escape(b)|..];
  }

  lemma {:induction false} BodyIsPrefixFree(a: string, b: string, x: string, y: string)
    requires Body(a) + x == Body(b) + y
    ensures a == b && x == y
  {
    if a == "" || b == "" {
      assert (Body(a) + x)[0] == Body(a)[0] && (Body(b) + y)[0] == Body(b)[0];
      assert a == b == "";
      assert x == (Body(a) + x)[1..] && y == (Body(b) + y)[1..];
    } else {
      assert Body(a) + x == Escape(a[0]) + (Body(a[1..]) + x);
      assert Body(b) + y == Escape(b[0]) + (Body(b[1..]) + y);
      EscapeIsPrefixFree(a[0], b[0], Body(a[1..]) + x, Body(b[1..]) + y);
      BodyIsPrefixFree(a[1..], b[1..], x, y);
    }
  }

  lemma SameHead(a: string, b: string, x: string, y: string)
    requires a != "" && b != "" && a + x == b + y
    ensures a[0] == b[0] && a[1..] + x == b[1..] + y
  {
    assert (a + x)[0] == a[0] && (b + y)[0] == b[0];
    assert (a + x)[1..] == a[1..] + x && (b + y)[1..] == b[1..] + y;
  }

  /** Whatever follows it, an encoded value ends where it ends and means one value. */
  lemma {:induction false} EncodeIsPrefixFree(a: Json, b: Json, x: string, y: string)
    requires Encode(a) + x == Encode(b) + y
    ensures a == b && x == y
    decreases a, 0
  {
    SameHead(Encode(a), Encode(b), x, y);
    match a {
      case Null =>
        assert x == (Encode(a) + x)[4..] && y == (Encode(b) + y)[4..];
      case Str(t) =>
        assert Encode(a)[1..] == Body(t) && Encode(b)[1..] == Body(b.text);
        BodyIsPrefixFree(t, b.text, x, y);
      case List(items) =>
        assert Encode(a)[1..] == Items(items, true) && Encode(b)[1..] == Items(b.items, true);
        ItemsArePrefixFree(items, b.items, true, x, y);
    }
  }

  lemma {:induction false} ItemsArePrefixFree(a: seq<Json>, b: seq<Json>, first: bool, x: string, y: string)
    requires Items(a, first) + x == Items(b, first) + y
    ensures a == b && x == y
    decreases a, 1
  {
    SameHead(Items(a, first), Items(b, first), x, y);
    if a == [] || b == [] {
      assert a == b == [];
      assert x == (Items(a, first) + x)[1..] && y == (Items(b, first) + y)[1..];
    } else {
      UnfoldItems(a, first, x);
      UnfoldItems(b, first, y);
      var u, v := Encode(a[0]) + (Items(a[1..], false) + x), Encode(b[0]) + (Items(b[1..], false) + y);
      SameTail(if first then [] else [','], u, v);
      EncodeIsPrefixFree(a[0], b[0], Items(a[1..], false) + x, Items(b[1..], false) + y);
      ItemsArePrefixFree(a[1..], b[1..], false, x, y);
      assert a == [a[0]] + a[1..] && b == [b[0]] + b[1..];
    }
  }

  lemma UnfoldItems(a: seq<Json>, first: bool, x: string)
    requires a != []
    ensures Items(a, first) + x == (if first then [] else [',']) + (Encode(a[0]) + (Items(a[1..], false) + x))
  {
  }

  lemma SameTail(lead: string, u: string, v: string)
    requires lead + u == lead + v
    ensures u == v
  {
    assert u == (lead + u)[|lead|..] && v == (lead + v)[|lead|..];
  }

  lemma EncodeInjective(a: Json, b: Json)
    requires Encode(a) == Encode(b)
    ensures a == b
  {
    assert Encode(a) + "" == Encode(b) + "";
    EncodeIsPrefixFree(a, b, "", "");
  }

  // ------------------------------------------------------------------ row identities

  /** A row's tenant, if any, and its primary key as text. */
  datatype Row = Row(tenant: Option<int>, key: seq<string>)

  function Identity(table: string, r: Row): (j: Json) {
    List([Str(table), if r.tenant.None? then Null else Str(Print(r.tenant.value))]
         + seq(|r.key|, i requires 0 <= i < |r.key| => Str(r.key[i])))
  }

  function Identities(table: string, rows: seq<Row>): (j: Json) {
    List(seq(|rows|, i requires 0 <= i < |rows| => Identity(table, rows[i])))
  }

  lemma IdentityInjective(table: string, r: Row, q: Row)
    requires Identity(table, r) == Identity(table, q)
    ensures r == q
  {
    var a, b := Identity(table, r).items, Identity(table, q).items;
    assert a[1] == b[1] && |r.key| == |q.key|;
    if r.tenant.Some? && q.tenant.Some? { PrintInjective(r.tenant.value, q.tenant.value); }
    forall i | 0 <= i < |r.key| ensures r.key[i] == q.key[i] {
      assert a[i + 2] == b[i + 2];
    }
  }

  lemma IdentitiesInjective(table: string, a: seq<Row>, b: seq<Row>)
    requires Identities(table, a) == Identities(table, b)
    ensures a == b
  {
    var x, y := Identities(table, a).items, Identities(table, b).items;
    assert |a| == |x| == |y| == |b|;
    forall i | 0 <= i < |a| ensures a[i] == b[i] {
      assert x[i] == y[i];
      IdentityInjective(table, a[i], b[i]);
    }
  }

  /** Text without quotes, backslashes and controls stands as it is between two quotes. */
  lemma {:induction false} PlainText(t: string)
    requires forall i :: 0 <= i < |t| ==> t[i] >= ' ' && t[i] != '"' && t[i] != '\\'
    ensures Body(t) == t + ['"'] && Encode(Str(t)) == ['"'] + t + ['"']
  {
    if t != "" {
      PlainText(t[1..]);
      assert t == [t[0]] + t[1..];
    }
  }

  lemma FirstItem(j: Json, rest: seq<Json>, first: bool)
    ensures Items([j] + rest, first) == (if first then [] else [',']) + Encode(j) + Items(rest, false)
  {
    assert ([j] + rest)[1..] == rest;
  }

  lemma ThreeItems(a: Json, b: Json, c: Json)
    ensures Encode(List([a] + ([b] + ([c] + []))))
      == ['['] + ([] + Encode(a) + ([','] + Encode(b) + ([','] + Encode(c) + [']'])))
  {
    FirstItem(a, [b] + ([c] + []), true);
    FirstItem(b, [c] + [], false);
    FirstItem(c, [], false);
  }

  /** The text of a row with a one-column key: table, tenant or null, then the key, in one bracketed list. */
  lemma IdentityText(table: string, tenant: Option<int>, key: string)
    ensures var t := match tenant case Some(n) => Encode(Str(Print(n))) case None => ['n', 'u', 'l', 'l'];
      Encode(Identity(table, Row(tenant, [key])))
      == ['['] + ([] + Encode(Str(table)) + ([','] + t + ([','] + Encode(Str(key)) + [']'])))
  {
    var middle := if tenant.None? then Null else Str(Print(tenant.value));
    ThreeItems(Str(table), middle, Str(key));
    assert Identity(table, Row(tenant, [key])).items == [Str(table)] + ([middle] + ([Str(key)] + []));
  }

  /** The escapes: quote, backslash, the five named controls, and the others by number. */
  lemma EscapesAre()
    ensures Escape('"') == "\\\"" && Escape('\\') == "\\\\" && Escape('\n') == "\\n" && Escape('\t') == "\\t"
    ensures Escape('\U{0001}') == "\\u0001" && Escape('\U{001f}') == "\\u001f" && Escape('\U{00e9}') == ['\U{00e9}']
  {
  }

  /** What has been fed to the hash after `rows`. */
  function Fed(table: string, rows: seq<Row>): (s: string) {
    if rows == [] then ['[']
    else
      var n := |rows| - 1;
      Fed(table, rows[..n]) + (if n > 0 then [','] else []) + Encode(Identity(table, rows[n]))
  }

  lemma FedOneMore(table: string, rows: seq<Row>, k: nat)
    requires k < |rows|
    ensures Fed(table, rows[..k + 1]) ==
      Fed(table, rows[..k]) + (if k > 0 then [','] else []) + Encode(Identity(table, rows[k]))
  {
    assert rows[..k + 1][..k] == rows[..k];
  }

  lemma ItemsOneLess(items: seq<Json>, k: nat)
    requires k < |items|
    ensures Items(items[k..], k == 0) == (if k > 0 then [','] else []) + Encode(items[k]) + Items(items[k + 1..], false)
  {
    assert items[k..][1..] == items[k + 1..];
  }

  lemma Regroup(a: string, b: string, c: string, d: string)
    ensures a + (b + c + d) == a + b + c + d
  {
  }

  lemma {:induction false} FedIsPrefix(table: string, rows: seq<Row>, k: nat)
    requires k <= |rows|
    ensures Encode(Identities(table, rows)) ==
      Fed(table, rows[..k]) + Items(Identities(table, rows).items[k..], k == 0)
  {
    var items := Identities(table, rows).items;
    if k == 0 {
      assert items[0..] == items;
    } else {
      FedIsPrefix(table, rows, k - 1);
      FedOneMore(table, rows, k - 1);
      ItemsOneLess(items, k - 1);
      Regroup(Fed(table, rows[..k - 1]), if k > 1 then [','] else [], Encode(items[k - 1]), Items(items[k..], false));
    }
  }

  /** Feeding row by row and then the closing bracket feeds exactly the canonical list. */
  lemma StreamIsCanonical(table: string, rows: seq<Row>)
    ensures Fed(table, rows) + [']'] == Encode(Identities(table, rows))
  {
    FedIsPrefix(table, rows, |rows|);
    assert rows[..|rows|] == rows && Identities(table, rows).items[|rows|..] == [];
    assert Items([], |rows| == 0) == [']'];
  }

  class Hasher {
    var fed: string

    constructor ()
      ensures fed == ""
    {
      fed := "";
    }

    method Update(s: string)
      modifies this
      ensures fed == old(fed) + s
    {
      fed := fed + s;
    }
  }

  /** _identity_snapshot: one pass, no list kept, and the digest of the canonical list. */
  method Snapshot(table: string, rows: seq<Row>, hash: string -> string) returns (count: nat, digest: string)
    ensures count == |rows| && digest == hash(Encode(Identities(table, rows)))
  {
    var hasher := new Hasher();
    hasher.Update(['[']);
    count := 0;
    for i := 0 to |rows|
      invariant count == i && hasher.fed == Fed(table, rows[..i])
      invariant fresh(hasher)
    {
      assert rows[..i + 1][..i] == rows[..i];
      if count > 0 { hasher.Update([',']); }
      hasher.Update(Encode(Identity(table, rows[i])));
      count := count + 1;
    }
    assert rows[..|rows|] == rows;
    hasher.Update([']']);
    StreamIsCanonical(table, rows);
    digest := hash(hasher.fed);
  }

  // ------------------------------------------------------------------ whole against scoped

  predicate InScope(r: Row, valid: set<int>, optional: bool) {
    if r.tenant.None? then optional else r.tenant.value in valid
  }

  /** The scoped reading: the same rows in the same order, those in scope. */
  function Scoped(rows: seq<Row>, valid: set<int>, optional: bool): (s: seq<Row>)
    ensures |s| <= |rows|
  {
    if rows == [] then []
    else (if InScope(rows[0], valid, optional) then [rows[0]] else []) + Scoped(rows[1..], valid, optional)
  }

  function NullCount(rows: seq<Row>): (n: nat) {
    if rows == [] then 0 else (if rows[0].tenant.None? then 1 else 0) + NullCount(rows[1..])
  }

  function OrphanCount(rows: seq<Row>, valid: set<int>): (n: nat) {
    if rows == [] then 0
    else (if rows[0].tenant.Some? && rows[0].tenant.value !in valid then 1 else 0) + OrphanCount(rows[1..], valid)
  }

  /** What the scope leaves out is the orphans, and the null tenants where a tenant is required. */
  lemma {:induction false} ScopeLeavesOut(rows: seq<Row>, valid: set<int>, optional: bool)
    ensures var nulls := if optional then 0 else NullCount(rows);
      |Scoped(rows, valid, optional)| + OrphanCount(rows, valid) + nulls == |rows|
    ensures |Scoped(rows, valid, optional)| == |rows| ==> Scoped(rows, valid, optional) == rows
  {
    if rows != [] { ScopeLeavesOut(rows[1..], valid, optional); }
  }

  /** Over one state of the database the comparison matches exactly when there is no orphan and, where a
      tenant is required, no null tenant, whatever the hash. */
  method CompareTable(table: string, rows: seq<Row>, valid: set<int>, optional: bool, hash: string -> string)
    returns (matches: bool)
    ensures matches <==> OrphanCount(rows, valid) == 0 && (optional || NullCount(rows) == 0)
  {
    var legacyCount, legacyDigest := Snapshot(table, rows, hash);
    var scopedCount, scopedDigest := Snapshot(table, Scoped(rows, valid, optional), hash);
    matches := legacyCount == scopedCount && legacyDigest == scopedDigest;
    ScopeLeavesOut(rows, valid, optional);
  }

  ghost predicate Injective(hash: string -> string) {
    forall x, y :: hash(x) == hash(y) ==> x == y
  }

  /** Read at two moments, under a hash without collisions, it matches exactly when the earlier whole
      reading and the later scoped one are the same rows in the same order: equal counts alone say less. */
  method CompareReadings(
    table: string, whole: seq<Row>, later: seq<Row>, valid: set<int>, optional: bool, hash: string -> string)
    returns (matches: bool)
    requires Injective(hash)
    ensures matches <==> whole == Scoped(later, valid, optional)
  {
    var legacyCount, legacyDigest := Snapshot(table, whole, hash);
    var scopedCount, scopedDigest := Snapshot(table, Scoped(later, valid, optional), hash);
    matches := legacyCount == scopedCount && legacyDigest == scopedDigest;
    if matches {
      EncodeInjective(Identities(table, whole), Identities(table, Scoped(later, valid, optional)));
      IdentitiesInjective(table, whole, Scoped(later, valid, optional));
    }
  }
}
