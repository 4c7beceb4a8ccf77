/** Departments stored as rows with a comma-separated `ancestors` path, the anchored
    LIKE query that reads subtrees off that text, and the moves that rewrite it. */
module DeptTree {
  import opened Options
  import opened Text

  /** A row: the parent department and the stored path, "0" for a root. */
  datatype Dept = Dept(parent: Option<nat>, ancestors: string)

  type Rows = map<nat, Dept>

  /** The path a department with this parent is given when it is created or moved. */
  function PathUnder(rows: Rows, parent: Option<nat>): (s: string)
    requires parent.Some? ==> parent.value in rows
  {
    if parent.None? then "0" else rows[parent.value].ancestors + "," + Dec(parent.value)
  }

  /** Every stored path is the comma-joined chain of parents; ids are generated positive. */
  ghost predicate Consistent(rows: Rows) {
    0 !in rows && forall d :: d in rows ==>
      && (rows[d].parent.Some? ==> rows[d].parent.value in rows)
      && rows[d].ancestors == PathUnder(rows, rows[d].parent)
  }

  /** The tree itself, read from the parent links alone. */
  ghost predicate IsAncestor(rows: Rows, a: nat, d: nat)
    requires Consistent(rows) && d in rows
    decreases |rows[d].ancestors|
  {
    rows[d].parent.Some? &&
    (rows[d].parent.value == a || IsAncestor(rows, a, rows[d].parent.value))
  }

  /** `concat(',', ancestors, ',') LIKE '%,id,%'`. */
  predicate Matches(ancestors: string, id: nat) {
    Contains("," + ancestors + ",", "," + Dec(id) + ",")
  }

  /** get_dept_and_sub_ids: the chosen departments and every row whose path matches one. */
  function DeptAndSubIds(rows: Rows, chosen: set<nat>): (ids: set<nat>)
    ensures chosen <= ids
  {
    if chosen == {} then {}
    else chosen + set d | d in rows && exists c :: c in chosen && Matches(rows[d].ancestors, c)
  }

  lemma {:induction false} FieldsAreAncestors(rows: Rows, a: nat, d: nat)
    requires Consistent(rows) && d in rows
    ensures Dec(a) in Split(rows[d].ancestors, ',') <==> a == 0 || IsAncestor(rows, a, d)
    decreases |rows[d].ancestors|
  {
    if rows[d].parent.None? {
      SplitWithoutSeparator("0", ',');
      assert Dec(0) == "0";
      DecInjective(a, 0);
    } else {
      var p := rows[d].parent.value;
      FieldsAreAncestors(rows, a, p);
      DecAvoids(p, ',');
      SplitAtSeparator(rows[p].ancestors, Dec(p), ',');
      SplitWithoutSeparator(Dec(p), ',');
      assert rows[d].ancestors == rows[p].ancestors + [','] + Dec(p);
      DecInjective(a, p);
    }
  }

  /** The text query is the tree relation: no decimal prefix or suffix of an id ever matches.
      The literal 0 that every path starts with matches every row. */
  lemma MatchesIsAncestry(rows: Rows, a: nat, d: nat)
    requires Consistent(rows) && d in rows
    ensures Matches(rows[d].ancestors, a) <==> a == 0 || IsAncestor(rows, a, d)
  {
    DecAvoids(a, ',');
    AnchoredSearchFindsFields(rows[d].ancestors, Dec(a), ',');
    assert "," == [','];
    FieldsAreAncestors(rows, a, d);
  }

  /** The chosen departments and all their descendants, from the parent links alone. */
  ghost function Subtree(rows: Rows, chosen: set<nat>): (ids: set<nat>)
    requires Consistent(rows)
  {
    chosen + set d | d in rows && exists c :: c in chosen && IsAncestor(rows, c, d)
  }

  lemma SubIdsIsSubtree(rows: Rows, chosen: set<nat>)
    requires Consistent(rows)
    ensures 0 !in chosen ==> DeptAndSubIds(rows, chosen) == Subtree(rows, chosen)
    ensures 0 in chosen ==> DeptAndSubIds(rows, chosen) == chosen + rows.Keys
  {
    forall c, d | c in chosen && d in rows
      ensures Matches(rows[d].ancestors, c) <==> c == 0 || IsAncestor(rows, c, d)
    {
      MatchesIsAncestry(rows, c, d);
    }
  }

  lemma {:induction false} AncestryIsTransitive(rows: Rows, a: nat, b: nat, d: nat)
    requires Consistent(rows) && b in rows && d in rows
    requires IsAncestor(rows, a, b) && IsAncestor(rows, b, d)
    ensures IsAncestor(rows, a, d)
    decreases |rows[d].ancestors|
  {
    if rows[d].parent.value != b { AncestryIsTransitive(rows, a, b, rows[d].parent.value); }
  }

  lemma {:induction false} AncestorsAreShorter(rows: Rows, a: nat, d: nat)
    requires Consistent(rows) && d in rows && IsAncestor(rows, a, d)
    ensures a in rows && |rows[a].ancestors| < |rows[d].ancestors|
    decreases |rows[d].ancestors|
  {
    if rows[d].parent.value != a { AncestorsAreShorter(rows, a, rows[d].parent.value); }
  }

  /** The query is a closure operator: extensive, monotone and idempotent. */
  lemma SubIdsIsClosure(rows: Rows, small: set<nat>, large: set<nat>)
    requires Consistent(rows) && small <= large
    ensures small <= DeptAndSubIds(rows, small) <= DeptAndSubIds(rows, large)
    ensures DeptAndSubIds(rows, DeptAndSubIds(rows, small)) == DeptAndSubIds(rows, small)
  {
    var once := DeptAndSubIds(rows, small);
    forall d | d in DeptAndSubIds(rows, once) ensures d in once {
      if d !in once {
        var c :| c in once && Matches(rows[d].ancestors, c);
        MatchesIsAncestry(rows, c, d);
        if c !in small {
          var b :| b in small && Matches(rows[c].ancestors, b);
          MatchesIsAncestry(rows, b, c);
          if b != 0 { AncestryIsTransitive(rows, b, c, d); }
          MatchesIsAncestry(rows, b, d);
        }
      }
    }
  }

  // ------------------------------------------------------------------ moving a subtree

  /** The ids named by a path, `_ancestor_ids`. */
  function AncestorIds(ancestors: string): (ids: set<nat>) {
    set v | v in Split(ancestors, ',') && IsNumeral(v) && v != "0" :: Value(v)
  }

  lemma {:induction false} FieldsAreNumerals(rows: Rows, d: nat, v: string)
    requires Consistent(rows) && d in rows && v in Split(rows[d].ancestors, ',')
    ensures exists n: nat :: v == Dec(n)
    decreases |rows[d].ancestors|
  {
    if rows[d].parent.None? {
      SplitWithoutSeparator("0", ',');
      assert v == Dec(0);
    } else {
      var p := rows[d].parent.value;
      assert rows[d].ancestors == rows[p].ancestors + [','] + Dec(p);
      DecAvoids(p, ',');
      SplitAtSeparator(rows[p].ancestors, Dec(p), ',');
      SplitWithoutSeparator(Dec(p), ',');
      if v != Dec(p) { FieldsAreNumerals(rows, p, v); }
    }
  }

  /** Parsing a path yields exactly the ancestors in the tree. */
  lemma AncestorIdsAreAncestors(rows: Rows, a: nat, d: nat)
    requires Consistent(rows) && d in rows && a != 0
    ensures a in AncestorIds(rows[d].ancestors) <==> IsAncestor(rows, a, d)
  {
    FieldsAreAncestors(rows, a, d);
    ValueOfDec(a);
    ValueOfDec(0);
    if a in AncestorIds(rows[d].ancestors) {
      var v :| v in Split(rows[d].ancestors, ',') && IsNumeral(v) && v != "0" && Value(v) == a;
      FieldsAreNumerals(rows, d, v);
      var n: nat :| v == Dec(n);
      ValueOfDec(n);
    }
  }

  /** The rows `_update_descendants_ancestors` selects by their text. */
  predicate Selected(ancestors: string, pattern: string) {
    ancestors == pattern || pattern + "," <= ancestors
  }

  lemma {:induction false} DescendantsAreSelected(rows: Rows, d: nat, x: nat)
    requires Consistent(rows) && d in rows && x in rows
    ensures IsAncestor(rows, d, x) ==> Selected(rows[x].ancestors, rows[d].ancestors + "," + Dec(d))
    decreases |rows[x].ancestors|
  {
    if IsAncestor(rows, d, x) && rows[x].parent.value != d {
      var p := rows[x].parent.value;
      DescendantsAreSelected(rows, d, p);
      assert rows[x].ancestors == rows[p].ancestors + "," + Dec(p);
    }
  }

  lemma SelectedMatches(a: string, id: nat, s: string)
    requires Selected(s, a + "," + Dec(id))
    ensures Matches(s, id)
  {
    var pattern, anchored := a + "," + Dec(id), "," + Dec(id) + ",";
    var rest := if s == pattern then "" else s[|pattern| + 1..] + ",";
    if s != pattern { assert s == pattern + "," + s[|pattern| + 1..]; }
    assert "," + s + "," == ("," + a) + anchored + rest;
    ContainsAt("," + a, anchored, rest);
  }

  lemma SelectedAreDescendants(rows: Rows, d: nat, x: nat)
    requires Consistent(rows) && d in rows && x in rows
    ensures Selected(rows[x].ancestors, rows[d].ancestors + "," + Dec(d)) <==> IsAncestor(rows, d, x)
  {
    if Selected(rows[x].ancestors, rows[d].ancestors + "," + Dec(d)) {
      SelectedMatches(rows[d].ancestors, d, rows[x].ancestors);
      MatchesIsAncestry(rows, d, x);
    }
    DescendantsAreSelected(rows, d, x);
  }

  /** A path after moving the department with path `own` and id `d` below `prefix`. */
  function Retargeted(path: string, own: string, d: nat, prefix: string): (r: string) {
    if Selected(path, own + "," + Dec(d)) then ReplaceFirst(path, own, prefix) else path
  }

  lemma RetargetedPath(path: string, own: string, d: nat, prefix: string)
    requires Selected(path, own + "," + Dec(d))
    ensures Retargeted(path, own, d, prefix) == prefix + path[|own|..]
  {
    assert path[..|own|] == own;
  }

  lemma RetargetedChild(path: string, step: string, own: string, d: nat, prefix: string)
    requires Selected(path, own + "," + Dec(d)) && Selected(path + step, own + "," + Dec(d))
    ensures Retargeted(path + step, own, d, prefix) == Retargeted(path, own, d, prefix) + step
  {
    RetargetedPath(path, own, d, prefix);
    RetargetedPath(path + step, own, d, prefix);
    assert (path + step)[|own|..] == path[|own|..] + step;
  }

  /** The table after the rewrite: selected paths get the new prefix, the moved row its new parent. */
  ghost predicate Rewritten(before: Rows, after: Rows, d: nat, parent: Option<nat>, prefix: string)
    requires d in before
  {
    && after.Keys == before.Keys
    && after[d] == Dept(parent, prefix)
    && (forall x :: x in before && x != d ==>
          after[x] == Dept(before[x].parent, Retargeted(before[x].ancestors, before[d].ancestors, d, prefix)))
  }

  /** The rewritten path of a row is the rewritten path of its parent, extended by the parent. */
  lemma RetargetedRow(rows: Rows, d: nat, x: nat, prefix: string)
    requires Consistent(rows) && d in rows && x in rows && rows[x].parent.Some? && rows[x].parent.value != d
    ensures var p, own := rows[x].parent.value, rows[d].ancestors;
      Retargeted(rows[x].ancestors, own, d, prefix)
      == Retargeted(rows[p].ancestors, own, d, prefix) + ("," + Dec(p))
  {
    var p, own := rows[x].parent.value, rows[d].ancestors;
    SelectedAreDescendants(rows, d, x);
    SelectedAreDescendants(rows, d, p);
    assert rows[x].ancestors == rows[p].ancestors + ("," + Dec(p));
    if IsAncestor(rows, d, x) { RetargetedChild(rows[p].ancestors, "," + Dec(p), own, d, prefix); }
  }

  lemma RetargetedOwnChild(own: string, d: nat, prefix: string)
    ensures Retargeted(own + "," + Dec(d), own, d, prefix) == prefix + "," + Dec(d)
  {
    RetargetedPath(own + "," + Dec(d), own, d, prefix);
    assert (own + "," + Dec(d))[|own|..] == "," + Dec(d);
  }

  lemma UntouchedRow(rows: Rows, d: nat, x: nat, prefix: string)
    requires Consistent(rows) && d in rows && x in rows && !IsAncestor(rows, d, x)
    ensures Retargeted(rows[x].ancestors, rows[d].ancestors, d, prefix) == rows[x].ancestors
  {
    SelectedAreDescendants(rows, d, x);
  }

  lemma RewrittenRow(before: Rows, after: Rows, d: nat, parent: Option<nat>, x: nat)
    requires Consistent(before) && d in before && x in before && x != d
    requires parent.Some? ==> parent.value in before && parent.value != d && !IsAncestor(before, d, parent.value)
    requires Rewritten(before, after, d, parent, PathUnder(before, parent))
    ensures x in after && after[x].ancestors == PathUnder(after, after[x].parent)
  {
    var prefix := PathUnder(before, parent);
    if before[x].parent.None? {
      UntouchedRow(before, d, x, prefix);
    } else if before[x].parent.value == d {
      RetargetedOwnChild(before[d].ancestors, d, prefix);
    } else {
      RetargetedRow(before, d, x, prefix);
    }
  }

  lemma RewriteKeepsConsistency(before: Rows, after: Rows, d: nat, parent: Option<nat>)
    requires Consistent(before) && d in before
    requires parent.Some? ==> parent.value in before && parent.value != d && !IsAncestor(before, d, parent.value)
    requires Rewritten(before, after, d, parent, PathUnder(before, parent))
    ensures Consistent(after)
  {
    forall x | x in after && x != d
      ensures after[x].parent.Some? ==> after[x].parent.value in after
      ensures after[x].ancestors == PathUnder(after, after[x].parent)
    {
      RewrittenRow(before, after, d, parent, x);
    }
    if parent.Some? { UntouchedRow(before, d, parent.value, PathUnder(before, parent)); }
  }

  /** A consistent table is determined by its parent links. */
  lemma {:induction false} LinksDeterminePaths(a: Rows, b: Rows, d: nat)
    requires Consistent(a) && Consistent(b) && a.Keys == b.Keys && d in a
    requires forall x :: x in a ==> a[x].parent == b[x].parent
    ensures a[d] == b[d]
    decreases |a[d].ancestors|
  {
    if a[d].parent.Some? { LinksDeterminePaths(a, b, a[d].parent.value); }
  }

  class DeptTable {
    var rows: Rows

    constructor ()
      ensures rows == map[] && Consistent(rows)
    {
      rows := map[];
    }

    /** create: refused when the parent is missing. */
    method Create(id: nat, parent: Option<nat>) returns (ok: bool)
      requires Consistent(rows) && id != 0 && id !in rows
      modifies this
      ensures Consistent(rows)
      ensures ok <==> (parent.Some? ==> parent.value in old(rows))
      ensures ok ==> rows == old(rows)[id := Dept(parent, PathUnder(old(rows), parent))]
      ensures !ok ==> rows == old(rows)
    {
      if parent.Some? && parent.value !in rows {
        return false;
      }
      rows := rows[id := Dept(parent, PathUnder(rows, parent))];
      return true;
    }

    /** _update_descendants_ancestors: rewrite the path of every selected row. */
    method UpdateDescendants(d: nat, own: string, prefix: string)
      modifies this
      ensures rows.Keys == old(rows).Keys
      ensures forall x :: x in rows ==>
        rows[x] == Dept(old(rows)[x].parent, Retargeted(old(rows)[x].ancestors, own, d, prefix))
    {
      var todo := set x | x in rows && Selected(rows[x].ancestors, own + "," + Dec(d));
      while todo != {}
        invariant todo <= rows.Keys == old(rows).Keys
        invariant forall x :: x in rows && x in todo ==>
          rows[x] == old(rows)[x] && Selected(rows[x].ancestors, own + "," + Dec(d))
        invariant forall x :: x in rows && x !in todo ==>
          rows[x] == Dept(old(rows)[x].parent, Retargeted(old(rows)[x].ancestors, own, d, prefix))
        decreases |todo|
      {
        var x :| x in todo;
        todo := todo - {x};
        rows := rows[x := rows[x].(ancestors := ReplaceFirst(rows[x].ancestors, own, prefix))];
      }
    }

    /** move: only the moved department's parent link changes, and every path is the parent
        chain again; refused exactly when a row is missing, it hangs there already, or the move would
        close a cycle. */
    method Move(d: nat, parent: Option<nat>) returns (ok: bool)
      requires Consistent(rows)
      modifies this
      ensures Consistent(rows) && rows.Keys == old(rows).Keys
      ensures ok <==> d in old(rows) && old(rows)[d].parent != parent && (parent.Some? ==>
        parent.value in old(rows) && parent.value != d && !IsAncestor(old(rows), d, parent.value))
      ensures !ok ==> rows == old(rows)
      ensures ok ==> forall x :: x in rows ==>
        rows[x].parent == if x == d then parent else old(rows)[x].parent
    {
      if d !in rows || rows[d].parent == parent || (parent.Some? && parent.value !in rows) {
        return false;
      }
      if parent.Some? {
        AncestorIdsAreAncestors(rows, d, parent.value);
        if parent.value == d || d in AncestorIds(rows[parent.value].ancestors) {
          return false;
        }
      }
      ghost var before := rows;
      var own, prefix := rows[d].ancestors, PathUnder(rows, parent);
      UpdateDescendants(d, own, prefix);
      rows := rows[d := Dept(parent, prefix)];
      RewriteKeepsConsistency(before, rows, d, parent);
      return true;
    }
  }
}
