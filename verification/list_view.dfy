/** The permission list view (app/components/permissions/list-view.tsx): a
    case-insensitive search over object and action, and the `object.action`
    label of each row. */
module ListView {
  import opened SeqUtil
  import opened JsText
  import opened PermissionUtils
  import opened PermissionGroups

  /** The row test of the search (list-view.tsx:23-28): the object or the action
      contains the query, all lowercased. */
  predicate RowMatches(p: Permission, query: string) {
    Matches(p.obj, query) || Matches(p.action, query)
  }

  /** `(permission) => ...` as a value, for the filter. */
  function RowMatchesQuery(query: string): Permission -> bool {
    p => RowMatches(p, query)
  }

  /** `filteredPermissions` (list-view.tsx:18-29): a blank query shows every
      permission; otherwise the matching ones, in page order. The blank test trims
      the query, the match does not. */
  function FilterList(items: seq<Permission>, query: string): (r: seq<Permission>)
    ensures IsBlank(query) ==> r == items
    ensures forall p :: p in r <==> p in items && (IsBlank(query) || RowMatches(p, query))
    ensures forall p :: multiset(r)[p] == if IsBlank(query) || RowMatches(p, query) then multiset(items)[p] else 0
    ensures IsSubseq(r, items)
  {
    if IsBlank(query) then
      SubseqRefl(items);
      items
    else
      KeepIsSubseq(items, RowMatchesQuery(query));
      KeepMultiset(items, RowMatchesQuery(query));
      Keep(items, RowMatchesQuery(query))
  }

  /** The case of the query does not matter. */
  lemma FilterIgnoresQueryCase(items: seq<Permission>, query: string)
    ensures FilterList(items, Lower(query)) == FilterList(items, query)
  {
    LowerIdempotent(query);
    assert IsBlank(Lower(query)) <==> IsBlank(query) by {
      assert forall i :: 0 <= i < |query| ==> (IsWhitespace(Lower(query)[i]) <==> IsWhitespace(query[i]));
    }
    KeepSameTest(items, RowMatchesQuery(Lower(query)), RowMatchesQuery(query));
  }

  /** A lowercased string has a space exactly where the original has one. */
  lemma LowerSpaceAt(s: string, i: nat)
    requires i < |s| && Lower(s)[i] == ' '
    ensures s[i] == ' '
  {
  }

  /** The query is not trimmed before matching: a non-blank query with a leading
      space only finds rows whose object or action contains a space. */
  lemma PaddedQueryNeedsSpace(items: seq<Permission>, query: string, p: Permission)
    requires query != [] && query[0] == ' ' && !IsBlank(query)
    requires p in FilterList(items, query)
    ensures ' ' in p.obj || ' ' in p.action
  {
    assert RowMatches(p, query);
    if Matches(p.obj, query) {
      PaddedMatchNeedsSpace(p.obj, query);
    } else {
      PaddedMatchNeedsSpace(p.action, query);
    }
  }

  /** A text matched by a query that starts with a space contains a space. */
  lemma PaddedMatchNeedsSpace(text: string, query: string)
    requires query != [] && query[0] == ' '
    requires Matches(text, query)
    ensures ' ' in text
  {
    var q := Lower(query);
    assert q[0] == ' ';
    var i :| 0 <= i <= |Lower(text)| - |q| && OccursAt(Lower(text), q, i);
    assert Lower(text)[i] == q[0];
    LowerSpaceAt(text, i);
  }

  /** `x || '-'`: an empty field shows as a dash. */
  function OrDash(s: string): (r: string)
    ensures r != []
    ensures s != [] ==> r == s
    ensures s == [] ==> r == "-"
  {
    if s == [] then "-" else s
  }

  /** The text of a row's first column (list-view.tsx:41): object and action,
      each shown as '-' when empty, joined by '.'. */
  function RowLabel(p: Permission): (r: string)
    ensures |r| == |OrDash(p.obj)| + 1 + |OrDash(p.action)|
    ensures r[..|OrDash(p.obj)|] == OrDash(p.obj) && r[|OrDash(p.obj)|] == '.'
    ensures r[|OrDash(p.obj)| + 1..] == OrDash(p.action)
  {
    OrDash(p.obj) + "." + OrDash(p.action)
  }

  /** For objects without '.', the label determines the shown object and action. */
  lemma RowLabelDetermines(p: Permission, q: Permission)
    requires '.' !in OrDash(p.obj) && '.' !in OrDash(q.obj)
    requires RowLabel(p) == RowLabel(q)
    ensures OrDash(p.obj) == OrDash(q.obj) && OrDash(p.action) == OrDash(q.action)
  {
  }

  /** An empty object and a literal '-' object cannot be told apart in the list. */
  lemma EmptyFieldLooksLikeDash(p: Permission)
    ensures RowLabel(p.(obj := "")) == RowLabel(p.(obj := "-"))
    ensures RowLabel(p.(action := "")) == RowLabel(p.(action := "-"))
  {
  }
}
