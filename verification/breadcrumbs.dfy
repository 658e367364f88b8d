/** Breadcrumbs built from a pathname (app/utils/helpers/breadcumb.helper.ts) and
    the user detail layout's own breadcrumb loop
    (app/routes/main/users/detail/layout.tsx). */
module Breadcrumbs {
  import opened SeqUtil
  import opened JsText

  /** A breadcrumb item: its label and its link. */
  datatype Crumb = Crumb(caption: string, link: string)

  /** The test `Boolean` on a segment: it is not empty. */
  function NonEmpty(): string -> bool {
    s => s != []
  }

  /** `pathname.split('/').filter(Boolean)` (breadcumb.helper.ts:55,
      layout.tsx:49): the non-empty segments in order. */
  function Parts(pathname: string): (r: seq<string>)
    ensures forall k :: 0 <= k < |r| ==> r[k] != [] && '/' !in r[k]
    ensures forall x :: x in r <==> x in SplitOn(pathname, '/') && x != []
    ensures forall x :: multiset(r)[x] == if x == [] then 0 else multiset(SplitOn(pathname, '/'))[x]
    ensures IsSubseq(r, SplitOn(pathname, '/'))
  {
    var r := Keep(SplitOn(pathname, '/'), NonEmpty());
    KeepIsSubseq(SplitOn(pathname, '/'), NonEmpty());
    KeepMultiset(SplitOn(pathname, '/'), NonEmpty());
    assert forall k :: 0 <= k < |r| ==> r[k] in SplitOn(pathname, '/');
    r
  }

  /** The link of item `i`: '/' followed by the first `i + 1` segments joined by
      '/' (breadcumb.helper.ts:77, layout.tsx:57). */
  function Link(parts: seq<string>, i: nat): string
    requires i < |parts|
  {
    "/" + Join(parts[..i + 1], '/')
  }

  /** Each link extends the previous one by '/' and the next segment, so every
      link is a prefix of the next. */
  lemma LinkExtends(parts: seq<string>, i: nat)
    requires i + 1 < |parts|
    ensures Link(parts, i + 1) == Link(parts, i) + "/" + parts[i + 1]
    ensures Link(parts, i) <= Link(parts, i + 1)
  {
    assert parts[..i + 2] == parts[..i + 1] + [parts[i + 1]];
    JoinSnoc(parts[..i + 1], parts[i + 1], '/');
  }

  /** A pathname written as '/' and non-empty segments joined by '/' splits back
      into exactly those segments. */
  lemma {:induction false} PartsOfCanonicalPath(segments: seq<string>)
    requires |segments| >= 1
    requires forall k :: 0 <= k < |segments| ==> segments[k] != [] && '/' !in segments[k]
    ensures Parts("/" + Join(segments, '/')) == segments
  {
    var tail := Join(segments, '/');
    SplitJoin(segments, '/');
    assert ("/" + tail)[1..] == tail;
    assert SplitOn("/" + tail, '/') == [[]] + segments;
    KeepAppend([[]], segments, NonEmpty());
    assert Keep([[]], NonEmpty()) == [];
    KeepAll(segments, NonEmpty());
  }

  /** On such a pathname the last item links to the pathname itself. */
  lemma LastLinkIsPath(segments: seq<string>)
    requires |segments| >= 1
    requires forall k :: 0 <= k < |segments| ==> segments[k] != [] && '/' !in segments[k]
    ensures |Parts("/" + Join(segments, '/'))| == |segments|
    ensures Link(Parts("/" + Join(segments, '/')), |segments| - 1) == "/" + Join(segments, '/')
  {
    PartsOfCanonicalPath(segments);
    assert segments[..|segments|] == segments;
  }

  /** `word.charAt(0).toUpperCase() + word.slice(1)`. */
  function Capitalize(w: string): string {
    if w == [] then [] else [UpperChar(w[0])] + w[1..]
  }

  /** Every word capitalized. */
  function CapitalizeAll(ws: seq<string>): (r: seq<string>)
    ensures |r| == |ws|
    ensures forall k :: 0 <= k < |ws| ==> r[k] == Capitalize(ws[k])
  {
    seq(|ws|, k requires 0 <= k < |ws| => Capitalize(ws[k]))
  }

  /** `s.split(' ').map(capitalize).join(' ')`. */
  function CapitalizeWords(s: string): string {
    Join(CapitalizeAll(SplitOn(s, ' ')), ' ')
  }

  /** The character at `i` once the first letter of every word is upper case. */
  function TitleChar(s: string, i: nat): char
    requires i < |s|
  {
    if i == 0 || s[i - 1] == ' ' then UpperChar(s[i]) else s[i]
  }

  /** The first position of `c` in `s`. */
  function IndexOf(s: string, c: char): (j: nat)
    requires c in s
    ensures j < |s| && s[j] == c && c !in s[..j]
  {
    if s[0] == c then 0
    else
      assert c in s[1..];
      var j := IndexOf(s[1..], c);
      assert s[..j + 1] == [s[0]] + s[1..][..j];
      j + 1
  }

  /** Cutting at the first space: the first word, then the words of the rest. */
  lemma SplitAtFirstSpace(s: string, j: nat)
    requires j < |s| && s[j] == ' ' && ' ' !in s[..j]
    ensures SplitOn(s, ' ') == [s[..j]] + SplitOn(s[j + 1..], ' ')
  {
    assert s == s[..j] + [' '] + s[j + 1..];
    SplitAroundSeparator(s[..j], s[j + 1..], ' ');
  }

  /** A separator after a separator-free piece ends that piece. */
  lemma SplitAroundSeparator(w: string, t: string, sep: char)
    requires sep !in w
    ensures SplitOn(w + [sep] + t, sep) == [w] + SplitOn(t, sep)
  {
    assert w + [sep] + t == w + ([sep] + t);
    SplitPrefix(w, [sep] + t, sep);
    assert ([sep] + t)[1..] == t;
    assert w + [] == w;
  }

  /** Capitalizing the words of a string with a space: the first word
      capitalized, the space, then the rest capitalized. */
  lemma CapitalizeWordsStep(s: string, j: nat)
    requires j < |s| && s[j] == ' ' && ' ' !in s[..j]
    ensures CapitalizeWords(s) == Capitalize(s[..j]) + [' '] + CapitalizeWords(s[j + 1..])
  {
    var rest := SplitOn(s[j + 1..], ' ');
    SplitAtFirstSpace(s, j);
    CapitalizeAllCons(s[..j], rest);
    JoinCons(Capitalize(s[..j]), CapitalizeAll(rest), ' ');
  }

  /** Capitalizing a leading word and then the others is capitalizing them all. */
  lemma CapitalizeAllCons(w: string, ws: seq<string>)
    ensures CapitalizeAll([w] + ws) == [Capitalize(w)] + CapitalizeAll(ws)
  {
    var a, b := CapitalizeAll([w] + ws), [Capitalize(w)] + CapitalizeAll(ws);
    assert forall k :: 0 <= k < |a| ==> a[k] == b[k];
  }

  /** Joining a leading piece onto at least one more piece puts the separator
      between them. */
  lemma JoinCons(p: string, ps: seq<string>, sep: char)
    requires |ps| >= 1
    ensures Join([p] + ps, sep) == p + [sep] + Join(ps, sep)
  {
    assert ([p] + ps)[1..] == ps;
  }

  /** A string without spaces is one word. */
  lemma CapitalizeOneWord(s: string)
    requires ' ' !in s
    ensures CapitalizeWords(s) == Capitalize(s)
    ensures forall i :: 0 <= i < |s| ==> Capitalize(s)[i] == TitleChar(s, i)
  {
    SplitPrefix(s, [], ' ');
    assert s + [] == s;
    assert SplitOn(s, ' ') == [s];
    forall i | 0 < i < |s| ensures TitleChar(s, i) == s[i] {
      assert s[i - 1] in s;
    }
  }

  /** One position of a string cut at its first space. */
  lemma TitleCharAt(s: string, j: nat, t: string, i: nat)
    requires j < |s| && s[j] == ' ' && ' ' !in s[..j] && t == s[j + 1..] && i < |s|
    requires |CapitalizeWords(t)| == |t|
    requires forall k :: 0 <= k < |t| ==> CapitalizeWords(t)[k] == TitleChar(t, k)
    ensures |CapitalizeWords(s)| == |s|
    ensures CapitalizeWords(s)[i] == TitleChar(s, i)
  {
    var w := s[..j];
    CapitalizeWordsStep(s, j);
    CapitalizeOneWord(w);
    var r := CapitalizeWords(s);
    if i < j {
      assert r[i] == Capitalize(w)[i];
      assert TitleChar(s, i) == TitleChar(w, i) by {
        assert s[i] == w[i];
        assert i > 0 ==> s[i - 1] == w[i - 1];
      }
    } else if i > j {
      assert r[i] == CapitalizeWords(t)[i - j - 1];
      assert TitleChar(s, i) == TitleChar(t, i - j - 1) by {
        assert s[i] == t[i - j - 1];
        assert i - j - 1 > 0 ==> s[i - 1] == t[i - j - 2];
        assert i - j - 1 == 0 ==> s[i - 1] == ' ';
      }
    } else {
      assert r[i] == ' ';
    }
  }

  /** Capitalizing word by word capitalizes each character that starts the
      string or follows a space, and leaves the others alone. */
  lemma {:induction false} CapitalizeWordsSpec(s: string)
    ensures |CapitalizeWords(s)| == |s|
    ensures forall i :: 0 <= i < |s| ==> CapitalizeWords(s)[i] == TitleChar(s, i)
    decreases |s|
  {
    if ' ' !in s {
      CapitalizeOneWord(s);
    } else {
      var j := IndexOf(s, ' ');
      var t := s[j + 1..];
      CapitalizeWordsSpec(t);
      TitleCharAt(s, j, t, 0);
      forall i | 0 <= i < |s| ensures CapitalizeWords(s)[i] == TitleChar(s, i) {
        TitleCharAt(s, j, t, i);
      }
    }
  }

  /** `formatPathPart` (breadcumb.helper.ts:88-94): every '-' becomes a space and
      the first character of each space-separated word is put in upper case; the
      result has the same length and no '-'. */
  function FormatPathPart(part: string): (r: string)
    ensures |r| == |part|
    ensures forall i :: 0 <= i < |part| ==> r[i] == TitleChar(ReplaceChar(part, '-', ' '), i)
    ensures '-' !in r
  {
    var spaced := ReplaceChar(part, '-', ' ');
    CapitalizeWordsSpec(spaced);
    CapitalizeWords(spaced)
  }

  /** A resource as `getResourceName` inspects it: the properties it looks at,
      each possibly missing. `roleName` is the name of the `role` property. */
  datatype ResourceData = ResourceData(firstName: Option<string>, lastName: Option<string>, name: Option<string>, roleName: Option<string>)

  /** `getResourceName` (breadcumb.helper.ts:106-126): '' without data; the
      trimmed full name when both name parts exist; else the trimmed non-empty
      `name`; else the trimmed role name; else ''. The result never has outer
      whitespace. */
  function GetResourceName(resource: Option<ResourceData>): (r: string)
    ensures r == [] || (!IsWhitespace(r[0]) && !IsWhitespace(r[|r| - 1]))
    ensures resource.None? ==> r == []
    ensures resource.Some? && resource.value.firstName.Some? && resource.value.lastName.Some? ==>
              r == Trim(resource.value.firstName.value + " " + resource.value.lastName.value)
    ensures resource.Some? && !(resource.value.firstName.Some? && resource.value.lastName.Some?) ==>
              r == (if resource.value.name.GetOr("") != [] then Trim(resource.value.name.value)
                    else if resource.value.roleName.Some? then Trim(resource.value.roleName.value)
                    else [])
  {
    match resource
    case None => []
    case Some(d) =>
      if d.firstName.Some? && d.lastName.Some? then Trim(d.firstName.value + " " + d.lastName.value)
      else if d.name.GetOr("") != [] then Trim(d.name.value)
      else if d.roleName.Some? then Trim(d.roleName.value)
      else []
  }

  /** A role whose name is only whitespace shows as ''. */
  lemma BlankRoleNameShowsEmpty(name: string)
    requires name != [] && IsBlank(name)
    ensures GetResourceName(Some(ResourceData(None, None, Some(name), None))) == []
  {
  }

  /** The loading state of the resource behind a param. */
  datatype ResourceState = ResourceState(data: Option<ResourceData>, isLoading: bool, failed: bool)

  /** `Object.entries(params).find(([, value]) => value === part)`: the key of the
      first param whose value is the segment. */
  function MatchedParam(params: seq<(string, Option<string>)>, part: string): (r: Option<string>)
    ensures r.None? <==> forall k :: 0 <= k < |params| ==> params[k].1 != Some(part)
    ensures r.Some? ==> exists k :: 0 <= k < |params| && params[k] == (r.value, Some(part))
                                   && forall l :: 0 <= l < k ==> params[l].1 != Some(part)
  {
    if params == [] then None
    else if params[0].1 == Some(part) then Some(params[0].0)
    else
      var r := MatchedParam(params[1..], part);
      assert forall k :: 1 <= k < |params| ==> params[k] == params[1..][k - 1];
      r
  }

  const LoadingCaption := "Loading\U{2026}"

  /** The label of one segment (breadcumb.helper.ts:58-73): a segment no param
      equals is formatted; otherwise the first such param's resource gives
      'Loading…' while loading, else 'Unknown' when it failed, else its name. A
      param without resource state counts as neither loading nor failed. */
  function SegmentCaption(part: string, params: seq<(string, Option<string>)>, resources: map<string, ResourceState>): (r: string)
    ensures MatchedParam(params, part).None? ==> r == FormatPathPart(part)
    ensures MatchedParam(params, part).Some? && MatchedParam(params, part).value !in resources ==> r == []
    ensures MatchedParam(params, part).Some? && MatchedParam(params, part).value in resources ==>
              var st := resources[MatchedParam(params, part).value];
              r == (if st.isLoading then LoadingCaption else if st.failed then "Unknown" else GetResourceName(st.data))
  {
    match MatchedParam(params, part)
    case None => FormatPathPart(part)
    case Some(key) =>
      if key !in resources then GetResourceName(None)
      else if resources[key].isLoading then LoadingCaption
      else if resources[key].failed then "Unknown"
      else GetResourceName(resources[key].data)
  }

  /** `generateBreadcrumbs` (breadcumb.helper.ts:39-80): one item per non-empty
      segment, in order, labelled as above and linked to its prefix of the path. */
  function GenerateBreadcrumbs(pathname: string, params: seq<(string, Option<string>)>,
                               resources: map<string, ResourceState>): (r: seq<Crumb>)
    ensures |r| == |Parts(pathname)|
    ensures forall i :: 0 <= i < |r| ==>
              r[i] == Crumb(SegmentCaption(Parts(pathname)[i], params, resources), Link(Parts(pathname), i))
  {
    var parts := Parts(pathname);
    seq(|parts|, i requires 0 <= i < |parts| => Crumb(SegmentCaption(parts[i], params, resources), Link(parts, i)))
  }

  /** A segment no param names is shown formatted, so its label has no '-'. */
  lemma UnmatchedSegmentHasNoHyphen(pathname: string, params: seq<(string, Option<string>)>,
                                    resources: map<string, ResourceState>, i: nat)
    requires i < |Parts(pathname)|
    requires forall k :: 0 <= k < |params| ==> params[k].1 != Some(Parts(pathname)[i])
    ensures '-' !in GenerateBreadcrumbs(pathname, params, resources)[i].caption
  {
  }

  /** The label the user layout gives a segment (layout.tsx:53): the user's email,
      or '' without one, for the segment equal to the `id` param; the raw segment
      otherwise. */
  function UserSegmentCaption(part: string, id: Option<string>, email: Option<string>): string {
    if Some(part) == id then email.GetOr("") else part
  }

  /** `generatingBreadcrumb` (layout.tsx:47-62): the loop pushing one item per
      segment. */
  method UserBreadcrumb(pathname: string, id: Option<string>, email: Option<string>) returns (items: seq<Crumb>)
    ensures |items| == |Parts(pathname)|
    ensures forall i :: 0 <= i < |items| ==>
              items[i] == Crumb(UserSegmentCaption(Parts(pathname)[i], id, email), Link(Parts(pathname), i))
  {
    var pathParts := Parts(pathname);
    items := [];
    var index := 0;
    while index < |pathParts|
      invariant 0 <= index <= |pathParts|
      invariant |items| == index
      invariant forall i :: 0 <= i < index ==>
                  items[i] == Crumb(UserSegmentCaption(pathParts[i], id, email), Link(pathParts, i))
    {
      var part := pathParts[index];
      var caption := if Some(part) == id then email.GetOr("") else part;
      items := items + [Crumb(caption, "/" + Join(pathParts[..index + 1], '/'))];
      index := index + 1;
    }
  }

  /** The user layout's breadcrumb state. */
  class UserDetailBreadcrumb {
    var breadcrumb: seq<Crumb>

    constructor ()
      ensures breadcrumb == []
    {
      breadcrumb := [];
    }

    /** The effect on `[user, pathname]` (layout.tsx:64-68): the breadcrumb is
      rebuilt only when the user is loaded; `email` is the loaded user's email. */
    method Refresh(userLoaded: bool, pathname: string, id: Option<string>, email: Option<string>)
      modifies this
      ensures !userLoaded ==> breadcrumb == old(breadcrumb)
      ensures userLoaded ==> |breadcrumb| == |Parts(pathname)|
      ensures userLoaded ==> forall i :: 0 <= i < |breadcrumb| ==>
                breadcrumb[i] == Crumb(UserSegmentCaption(Parts(pathname)[i], id, email), Link(Parts(pathname), i))
    {
      if userLoaded {
        breadcrumb := UserBreadcrumb(pathname, id, email);
      }
    }
  }

  /** The layout and the helper link every segment alike. */
  lemma SameLinksAsHelper(pathname: string, params: seq<(string, Option<string>)>,
                          resources: map<string, ResourceState>, i: nat)
    requires i < |Parts(pathname)|
    ensures GenerateBreadcrumbs(pathname, params, resources)[i].link == Link(Parts(pathname), i)
  {
  }
}
