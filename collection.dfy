/** The autojoin of StORM\Collection: the dotted paths it finds in the fragments of a
    query, the joins it adds for the relations those paths walk, and the quote characters
    it puts around each path. */
module Autojoins {
  import opened Php
  import opened Errors
  import opened Helpers
  import Meta
  import Structures
  import Query
  import QueryProps
  import Connections

  /** the schema: the structure of each entity class, with its table and its relations by name */
  type Schema = map<string, Structures.Structure>

  /** `getStructure($class)->getRelation($name)`; a class outside the schema has no relations */
  function RelationOf(schema: Schema, cls: string, name: string): Option<Meta.RelationMeta> {
    if cls in schema then Get(schema[cls].relations, name) else None
  }

  /** `getStructure($class)->getTable()->getName()` */
  function TableOf(schema: Schema, cls: string): string {
    if cls in schema then schema[cls].table else ""
  }

  // ---------------------------------------------------------------------
  // REGEXP_AUTOJOIN, `(?:[A-Za-z0-9_]+\.)+`

  predicate WordChar(c: char) {
    'A' <= c <= 'Z' || 'a' <= c <= 'z' || '0' <= c <= '9' || c == '_'
  }

  /** the length of the run of word characters at p */
  function WordRun(s: string, p: nat): (n: nat)
    requires p <= |s|
    decreases |s| - p
    ensures p + n <= |s|
    ensures forall j :: p <= j < p + n ==> WordChar(s[j])
    ensures p + n == |s| || !WordChar(s[p + n])
  {
    if p < |s| && WordChar(s[p]) then 1 + WordRun(s, p + 1) else 0
  }

  /** the length of the match at p, 0 when none starts there: as many word runs each
      followed by a dot as there are */
  function PathAt(s: string, p: nat): (n: nat)
    requires p <= |s|
    decreases |s| - p
    ensures p + n <= |s|
  {
    var k := WordRun(s, p);
    if k > 0 && p + k < |s| && s[p + k] == '.' then k + 1 + PathAt(s, p + k + 1) else 0
  }

  /** `preg_match_all` with PREG_OFFSET_CAPTURE from p on: every match with its offset; the
      scan goes on after a match, or one character further where none starts */
  function Matches(s: string, p: nat): seq<(nat, string)>
    requires p <= |s|
    decreases |s| - p
  {
    if p == |s| then []
    else
      var n := PathAt(s, p);
      if n > 0 then [(p, s[p..p + n])] + Matches(s, p + n) else Matches(s, p + 1)
  }

  /** a match of the pattern: it starts with a word character, ends with a dot, and holds
      nothing but word characters and dots */
  ghost predicate DottedPath(m: string) {
    && |m| >= 2 && m[|m| - 1] == '.' && WordChar(m[0])
    && forall j :: 0 <= j < |m| ==> WordChar(m[j]) || m[j] == '.'
  }

  /** the matches lie in s from `from` on, in order, without overlapping */
  ghost predicate MatchesFrom(s: string, ms: seq<(nat, string)>, from: nat)
    decreases |ms|
  {
    || ms == []
    || (&& from <= ms[0].0 && ms[0].0 + |ms[0].1| <= |s| && s[ms[0].0..ms[0].0 + |ms[0].1|] == ms[0].1
        && |ms[0].1| >= 2
        && MatchesFrom(s, ms[1..], ms[0].0 + |ms[0].1|))
  }

  /** the characters of s from lo to hi make a dotted path */
  ghost predicate DottedSpan(s: string, lo: nat, hi: nat)
    requires lo <= hi <= |s|
  {
    && hi - lo >= 2 && s[hi - 1] == '.' && WordChar(s[lo])
    && forall j :: lo <= j < hi ==> WordChar(s[j]) || s[j] == '.'
  }

  lemma PathAtShape(s: string, p: nat)
    requires p <= |s| && PathAt(s, p) > 0
    ensures DottedPath(s[p..p + PathAt(s, p)])
  {
    PathAtSpan(s, p);
    SpanDotted(s, p, p + PathAt(s, p));
  }

  lemma {:induction false} PathAtSpan(s: string, p: nat)
    requires p <= |s| && PathAt(s, p) > 0
    decreases |s| - p, 1
    ensures DottedSpan(s, p, p + PathAt(s, p))
  {
    var k := WordRun(s, p);
    var rest := PathAt(s, p + k + 1);
    assert PathAt(s, p) == k + 1 + rest;
    if rest > 0 {
      PathAtSpanMore(s, p);
    } else {
      WordRunSpan(s, p);
    }
  }

  /** the step of PathAtSpan where another word run follows the dot */
  lemma {:induction false} PathAtSpanMore(s: string, p: nat)
    requires p <= |s| && PathAt(s, p) > 0
    requires PathAt(s, p + WordRun(s, p) + 1) > 0
    decreases |s| - p, 0
    ensures DottedSpan(s, p, p + PathAt(s, p))
  {
    var k := WordRun(s, p);
    var rest := PathAt(s, p + k + 1);
    assert PathAt(s, p) == k + 1 + rest;
    PathAtSpan(s, p + k + 1);
    SpanJoin(s, p, p + k + 1 + rest);
  }

  /** a word run closed by a dot is a dotted span */
  lemma WordRunSpan(s: string, p: nat)
    requires p <= |s| && WordRun(s, p) > 0 && p + WordRun(s, p) < |s| && s[p + WordRun(s, p)] == '.'
    ensures DottedSpan(s, p, p + WordRun(s, p) + 1)
  {
    WordRunHead(s, p);
  }

  /** a word run closed by a dot, in front of a dotted path */
  lemma SpanJoin(s: string, p: nat, hi: nat)
    requires p <= |s| && WordRun(s, p) > 0 && p + WordRun(s, p) < |s| && s[p + WordRun(s, p)] == '.'
    requires p + WordRun(s, p) + 1 <= hi <= |s| && DottedSpan(s, p + WordRun(s, p) + 1, hi)
    ensures DottedSpan(s, p, hi)
  {
    WordRunHead(s, p);
  }

  lemma SpanDotted(s: string, lo: nat, hi: nat)
    requires lo <= hi <= |s| && DottedSpan(s, lo, hi)
    ensures DottedPath(s[lo..hi])
  {
    var m := s[lo..hi];
    forall j | 0 <= j < |m| ensures WordChar(m[j]) || m[j] == '.' {
      assert m[j] == s[lo + j];
    }
  }

  /** a word run closed by a dot */
  lemma WordRunHead(s: string, p: nat)
    requires p <= |s| && WordRun(s, p) > 0 && p + WordRun(s, p) < |s| && s[p + WordRun(s, p)] == '.'
    ensures WordChar(s[p]) && forall j :: p <= j < p + WordRun(s, p) + 1 ==> WordChar(s[j]) || s[j] == '.'
  {
  }

  lemma {:induction false} MatchesFromWeaken(s: string, ms: seq<(nat, string)>, from: nat, from': nat)
    requires MatchesFrom(s, ms, from) && from' <= from
    ensures MatchesFrom(s, ms, from')
  {
  }

  /** Every match is a dotted path. */
  lemma {:induction false} MatchesDotted(s: string, p: nat)
    requires p <= |s|
    decreases |s| - p
    ensures forall i :: 0 <= i < |Matches(s, p)| ==> DottedPath(Matches(s, p)[i].1)
  {
    if p < |s| {
      var n := PathAt(s, p);
      if n > 0 {
        PathAtShape(s, p);
        MatchesDotted(s, p + n);
        var ms := Matches(s, p);
        assert ms == [(p, s[p..p + n])] + Matches(s, p + n);
        forall i | 0 <= i < |ms| ensures DottedPath(ms[i].1) {
          if i > 0 { assert ms[i] == Matches(s, p + n)[i - 1]; }
        }
      } else {
        MatchesDotted(s, p + 1);
      }
    }
  }

  lemma MatchesUnfold(s: string, p: nat)
    requires p < |s|
    ensures PathAt(s, p) > 0 ==> Matches(s, p) == [(p, s[p..p + PathAt(s, p)])] + Matches(s, p + PathAt(s, p))
    ensures PathAt(s, p) == 0 ==> Matches(s, p) == Matches(s, p + 1)
  {
  }

  lemma MatchesFromAt(s: string, off: nat, n: nat, rest: seq<(nat, string)>, from: nat)
    requires from <= off && off + n <= |s| && n >= 2 && MatchesFrom(s, rest, off + n)
    ensures MatchesFrom(s, [(off, s[off..off + n])] + rest, from)
  {
    assert ([(off, s[off..off + n])] + rest)[1..] == rest;
  }

  /** The matches are found in the text at their offsets, in order and without overlapping. */
  lemma {:induction false} MatchesSound(s: string, p: nat)
    requires p <= |s|
    decreases |s| - p, 1
    ensures MatchesFrom(s, Matches(s, p), p)
  {
    if p < |s| {
      if PathAt(s, p) > 0 {
        MatchesSoundAt(s, p);
      } else {
        MatchesUnfold(s, p);
        MatchesSound(s, p + 1);
        MatchesFromWeaken(s, Matches(s, p + 1), p + 1, p);
      }
    }
  }

  /** the step of MatchesSound where a match starts */
  lemma {:induction false} MatchesSoundAt(s: string, p: nat)
    requires p < |s| && PathAt(s, p) > 0
    decreases |s| - p, 0
    ensures MatchesFrom(s, Matches(s, p), p)
  {
    var n := PathAt(s, p);
    assert n >= 2;
    MatchesSound(s, p + n);
    MatchesUnfold(s, p);
    MatchesFromAt(s, p, n, Matches(s, p + n), p);
  }

  // ---------------------------------------------------------------------
  // explode('.', $path)

  /** `explode('.', $s)` */
  function Explode(s: string): (r: seq<string>)
    decreases |s|
    ensures |r| >= 1
  {
    if s == [] then [""]
    else
      var init := Explode(s[..|s| - 1]);
      if s[|s| - 1] == '.' then init + [""]
      else init[..|init| - 1] + [init[|init| - 1] + [s[|s| - 1]]]
  }

  /** implode undoes explode */
  lemma {:induction false} ExplodeImplode(s: string)
    decreases |s|
    ensures Implode(".", Explode(s)) == s
  {
    if s != [] {
      var p, c := s[..|s| - 1], s[|s| - 1];
      assert s == p + [c];
      ExplodeImplode(p);
      var init := Explode(p);
      if c == '.' {
        ImplodeSnoc(".", init, "");
      } else {
        var n := |init| - 1;
        var front, last := init[..n], init[n];
        assert init == front + [last];
        ImplodeSnoc(".", front, last);
        ImplodeSnoc(".", front, last + [c]);
        assert Explode(s) == front + [last + [c]];
      }
    }
  }

  /** no part of explode holds the separator */
  lemma {:induction false} ExplodeParts(s: string)
    decreases |s|
    ensures forall i :: 0 <= i < |Explode(s)| ==> '.' !in Explode(s)[i]
  {
    if s != [] {
      var p, c := s[..|s| - 1], s[|s| - 1];
      ExplodeParts(p);
      var init := Explode(p);
      var r := Explode(s);
      if c != '.' {
        var n := |init| - 1;
        forall i | 0 <= i < |r| ensures '.' !in r[i] {
          if i < n {
            assert r[i] == init[i];
          } else {
            assert r[i] == init[n] + [c];
            assert '.' !in init[n];
          }
        }
      } else {
        forall i | 0 <= i < |r| ensures '.' !in r[i] {
          if i < |init| { assert r[i] == init[i]; }
        }
      }
    }
  }

  /** explode gives several parts exactly when the text holds a dot */
  lemma {:induction false} ExplodeSeveral(s: string)
    decreases |s|
    ensures |Explode(s)| > 1 <==> '.' in s
  {
    if s != [] {
      var p, c := s[..|s| - 1], s[|s| - 1];
      assert s == p + [c];
      ExplodeSeveral(p);
      assert '.' in s <==> '.' in p || c == '.';
    }
  }

  // ---------------------------------------------------------------------
  // The walk along one path

  /** the joins of one hop along `rel`, the target aliased realAlias: the junction table and
      then the target for N:N, the target alone otherwise */
  function JoinHop(st: Query.State, schema: Schema, rel: Meta.RelationMeta, realAlias: string): Query.Out {
    var aliasQ := Connections.QuoteIdentifier(st.quote, realAlias);
    var sourceTable := TableOf(schema, rel.source);
    var sourceAlias := match Get(st.tableAliases, sourceTable) case Some(a) => a case None => sourceTable;
    var sourceQ := Connections.QuoteIdentifier(st.quote, sourceAlias);
    var target := [(StrKey(aliasQ), Query.Text(TableOf(schema, rel.target)))];
    match rel.kind
    case ManyToMany(via, sourceViaKey, targetViaKey) =>
      var o := Query.AddJoin(st, [(IntKey(0), Query.Text(via))], via + "." + sourceViaKey + "=" + sourceQ + "." + rel.sourceKey,
                             [], Some(Query.DefaultJoin));
      if o.err.Some? then o
      else Query.AddJoin(o.st, target, via + "." + targetViaKey + "=" + aliasQ + "." + rel.targetKey, [], Some(Query.DefaultJoin))
    case _ =>
      Query.AddJoin(st, target, sourceQ + "." + rel.sourceKey + "=" + aliasQ + "." + rel.targetKey, [], Some(Query.DefaultJoin))
  }

  /** the walk along the segments of a path, the owning class starting at cls: a segment
      that names no relation of the owning class is passed over; a relation whose alias
      (the path so far) is registered is followed without a join; any other relation is
      joined and followed */
  function Hops(st: Query.State, schema: Schema, cls: string, prefix: string, segs: seq<string>): Query.Out
    decreases |segs|
  {
    if segs == [] then Query.Out(st, None)
    else
      match RelationOf(schema, cls, segs[0])
      case None => Hops(st, schema, cls, prefix, segs[1..])
      case Some(rel) =>
        var realAlias := prefix + segs[0];
        if realAlias in Keys(st.aliases) then Hops(st, schema, rel.target, realAlias + ".", segs[1..])
        else
          var o := JoinHop(st, schema, rel, realAlias);
          if o.err.Some? then o else Hops(o.st, schema, rel.target, realAlias + ".", segs[1..])
  }

  /** the walk as the source writes it: a segment whose bare name is a registered alias is
      passed over without following its relation, so the rest of the path is looked up on
      the wrong class */
  function HopsAsWritten(st: Query.State, schema: Schema, cls: string, prefix: string, segs: seq<string>): Query.Out
    decreases |segs|
  {
    if segs == [] then Query.Out(st, None)
    else if segs[0] in Keys(st.aliases) then HopsAsWritten(st, schema, cls, prefix, segs[1..])
    else
      match RelationOf(schema, cls, segs[0])
      case None => HopsAsWritten(st, schema, cls, prefix, segs[1..])
      case Some(rel) =>
        var o := JoinHop(st, schema, rel, prefix + segs[0]);
        if o.err.Some? then o else HopsAsWritten(o.st, schema, rel.target, prefix + segs[0] + ".", segs[1..])
  }

  /** what a walk may change: joins are only appended, an alias already registered keeps
      its clause, and nothing but the joins and the aliases changes */
  ghost predicate Extends(s: Query.State, s': Query.State) {
    && s.joins <= s'.joins
    && (forall x :: x in Keys(s.aliases) ==> Get(s'.aliases, x) == Get(s.aliases, x))
    && s'.(joins := s.joins, aliases := s.aliases, tableAliases := s.tableAliases) == s
  }

  lemma ExtendsTrans(s1: Query.State, s2: Query.State, s3: Query.State)
    requires Extends(s1, s2) && Extends(s2, s3)
    ensures Extends(s1, s3)
  {
    forall x | x in Keys(s1.aliases) ensures Get(s3.aliases, x) == Get(s1.aliases, x) {
      assert Get(s2.aliases, x) == Get(s1.aliases, x);
    }
  }

  /** joining one table without bound values: it succeeds exactly when the collection is not
      loaded and the table's alias is a valid identifier not yet registered; it then appends
      one join and registers the alias for JOIN, and on failure it changes nothing */
  lemma AddJoinOne(st: Query.State, from: seq<(Key, Query.Src)>, condition: string, kind: Option<string>)
    requires |from| == 1
    ensures var o := Query.AddJoin(st, from, condition, [], kind);
            var a := Query.AliasOf(st.quote, from[0].0, from[0].1);
            && (o.err.None? <==> !st.loaded && IsValidIdentifier(a) && a !in Keys(st.aliases))
            && (o.err.Some? ==> o.st == st)
            && (o.err.None? ==> o.st.joins == st.joins + [Query.Join(Query.JoinKind(kind), from, Some(condition))])
            && (o.err.None? ==> forall x :: Get(o.st.aliases, x) == if x == a then Some(Query.JoinClause) else Get(st.aliases, x))
            && Extends(st, o.st)
  {
    var o := Query.AddJoin(st, from, condition, [], kind);
    var a := Query.AliasOf(st.quote, from[0].0, from[0].1);
    if !st.loaded && IsValidIdentifier(a) && a !in Keys(st.aliases) {
      var table := if from[0].1.Text? then from[0].1.sql else a;
      var s1 := st.(aliases := Put(st.aliases, a, Query.JoinClause), tableAliases := Put(st.tableAliases, table, a));
      assert Query.AddAlias(st, from, Query.JoinClause) == Query.AddAlias(s1, from[1..], Query.JoinClause);
      assert from[1..] == [];
      var s2 := s1.(joins := s1.joins + [Query.Join(Query.JoinKind(kind), from, Some(condition))]);
      assert o == Query.BindAll(s2, [], Query.JoinClause) == Query.Out(s2, None);
      forall x ensures Get(o.st.aliases, x) == if x == a then Some(Query.JoinClause) else Get(st.aliases, x) {
        GetPut(st.aliases, a, Query.JoinClause, x);
      }
    }
  }

  lemma QuotedAlias(q: string, ra: string, t: Query.Src)
    requires |q| == 1
    ensures Query.AliasOf(q, StrKey(Connections.QuoteIdentifier(q, ra)), t) == ra
  {
    var s := q + ra + q;
    assert s[..1] == q;
    assert s[1..|s| - 1] == ra;
  }

  /** One hop joins the target under the alias it is given, after the junction table for
      N:N: it succeeds exactly when the collection is not loaded and the aliases are valid
      and not registered yet, and then adds one join, or two for N:N, and registers the alias. */
  lemma JoinHopJoins(st: Query.State, schema: Schema, rel: Meta.RelationMeta, realAlias: string)
    requires |st.quote| == 1
    ensures var o := JoinHop(st, schema, rel, realAlias);
            && Extends(st, o.st)
            && (!rel.kind.ManyToMany? ==>
                  (o.err.None? <==> !st.loaded && IsValidIdentifier(realAlias) && realAlias !in Keys(st.aliases)))
            && (rel.kind.ManyToMany? ==>
                  var via := Query.AliasOf(st.quote, IntKey(0), Query.Text(rel.kind.via));
                  (o.err.None? <==> && !st.loaded && IsValidIdentifier(via) && via !in Keys(st.aliases)
                                    && IsValidIdentifier(realAlias) && realAlias !in Keys(st.aliases) + [via]))
            && (o.err.None? ==> |o.st.joins| == |st.joins| + (if rel.kind.ManyToMany? then 2 else 1))
            && (o.err.None? ==> Get(o.st.aliases, realAlias) == Some(Query.JoinClause))
  {
    if rel.kind.ManyToMany? {
      JoinHopVia(st, schema, rel, realAlias);
    } else {
      var aliasQ := Connections.QuoteIdentifier(st.quote, realAlias);
      var target := [(StrKey(aliasQ), Query.Text(TableOf(schema, rel.target)))];
      QuotedAlias(st.quote, realAlias, Query.Text(TableOf(schema, rel.target)));
      var sourceTable := TableOf(schema, rel.source);
      var sourceAlias := match Get(st.tableAliases, sourceTable) case Some(a) => a case None => sourceTable;
      var sourceQ := Connections.QuoteIdentifier(st.quote, sourceAlias);
      AddJoinOne(st, target, sourceQ + "." + rel.sourceKey + "=" + aliasQ + "." + rel.targetKey, Some(Query.DefaultJoin));
    }
  }

  lemma JoinHopVia(st: Query.State, schema: Schema, rel: Meta.RelationMeta, realAlias: string)
    requires |st.quote| == 1 && rel.kind.ManyToMany?
    ensures var o := JoinHop(st, schema, rel, realAlias);
            var via := Query.AliasOf(st.quote, IntKey(0), Query.Text(rel.kind.via));
            && Extends(st, o.st)
            && (o.err.None? <==> && !st.loaded && IsValidIdentifier(via) && via !in Keys(st.aliases)
                                 && IsValidIdentifier(realAlias) && realAlias !in Keys(st.aliases) + [via])
            && (o.err.None? ==> |o.st.joins| == |st.joins| + 2)
            && (o.err.None? ==> Get(o.st.aliases, realAlias) == Some(Query.JoinClause))
  {
    var aliasQ := Connections.QuoteIdentifier(st.quote, realAlias);
    var target := [(StrKey(aliasQ), Query.Text(TableOf(schema, rel.target)))];
    QuotedAlias(st.quote, realAlias, Query.Text(TableOf(schema, rel.target)));
    var o := JoinHop(st, schema, rel, realAlias);
    var via, sourceViaKey, targetViaKey := rel.kind.via, rel.kind.sourceViaKey, rel.kind.targetViaKey;
    var sourceTable := TableOf(schema, rel.source);
    var sourceAlias := match Get(st.tableAliases, sourceTable) case Some(a) => a case None => sourceTable;
    var sourceQ := Connections.QuoteIdentifier(st.quote, sourceAlias);
    var o1 := Query.AddJoin(st, [(IntKey(0), Query.Text(via))], via + "." + sourceViaKey + "=" + sourceQ + "." + rel.sourceKey,
                            [], Some(Query.DefaultJoin));
    AddJoinOne(st, [(IntKey(0), Query.Text(via))], via + "." + sourceViaKey + "=" + sourceQ + "." + rel.sourceKey, Some(Query.DefaultJoin));
    if o1.err.None? {
      var viaA := Query.AliasOf(st.quote, IntKey(0), Query.Text(via));
      AddJoinOne(o1.st, target, via + "." + targetViaKey + "=" + aliasQ + "." + rel.targetKey, Some(Query.DefaultJoin));
      ExtendsTrans(st, o1.st, o.st);
      assert Get(o1.st.aliases, viaA) == Some(Query.JoinClause);
      assert realAlias in Keys(o1.st.aliases) <==> realAlias in Keys(st.aliases) + [viaA] by {
        assert Get(o1.st.aliases, realAlias).Some? <==> realAlias == viaA || Get(st.aliases, realAlias).Some?;
      }
    }
  }

  lemma JoinHopOne(st: Query.State, schema: Schema, rel: Meta.RelationMeta, realAlias: string)
    requires |st.quote| == 1 && !rel.kind.ManyToMany?
    requires !st.loaded && IsValidIdentifier(realAlias) && realAlias !in Keys(st.aliases)
    ensures var o := JoinHop(st, schema, rel, realAlias);
            o.err.None? && Get(o.st.aliases, realAlias) == Some(Query.JoinClause) && |o.st.joins| == |st.joins| + 1
  {
    JoinHopJoins(st, schema, rel, realAlias);
  }

  /** A walk changes nothing but the joins and the aliases, appends joins only, and leaves
      every registered alias registered for its clause. */
  lemma {:induction false} HopsExtends(st: Query.State, schema: Schema, cls: string, prefix: string, segs: seq<string>)
    requires |st.quote| == 1
    decreases |segs|
    ensures Extends(st, Hops(st, schema, cls, prefix, segs).st)
  {
    if segs != [] {
      match RelationOf(schema, cls, segs[0])
      case None => HopsExtends(st, schema, cls, prefix, segs[1..]);
      case Some(rel) =>
        var realAlias := prefix + segs[0];
        if realAlias in Keys(st.aliases) {
          HopsExtends(st, schema, rel.target, realAlias + ".", segs[1..]);
        } else {
          var o := JoinHop(st, schema, rel, realAlias);
          JoinHopJoins(st, schema, rel, realAlias);
          if o.err.None? {
            HopsExtends(o.st, schema, rel.target, realAlias + ".", segs[1..]);
            ExtendsTrans(st, o.st, Hops(o.st, schema, rel.target, realAlias + ".", segs[1..]).st);
          }
        }
    }
  }

  lemma {:induction false} HopsAsWrittenExtends(st: Query.State, schema: Schema, cls: string, prefix: string, segs: seq<string>)
    requires |st.quote| == 1
    decreases |segs|
    ensures Extends(st, HopsAsWritten(st, schema, cls, prefix, segs).st)
  {
    if segs != [] {
      if segs[0] in Keys(st.aliases) {
        HopsAsWrittenExtends(st, schema, cls, prefix, segs[1..]);
      } else {
        match RelationOf(schema, cls, segs[0])
        case None => HopsAsWrittenExtends(st, schema, cls, prefix, segs[1..]);
        case Some(rel) =>
          var o := JoinHop(st, schema, rel, prefix + segs[0]);
          JoinHopJoins(st, schema, rel, prefix + segs[0]);
          if o.err.None? {
            HopsAsWrittenExtends(o.st, schema, rel.target, prefix + segs[0] + ".", segs[1..]);
            ExtendsTrans(st, o.st, HopsAsWritten(o.st, schema, rel.target, prefix + segs[0] + ".", segs[1..]).st);
          }
      }
    }
  }

  /** every relation the path walks, from class cls, has its alias (the path up to it)
      registered in A */
  ghost predicate Covered(A: seq<(string, Query.Clause)>, schema: Schema, cls: string, prefix: string, segs: seq<string>)
    decreases |segs|
  {
    || segs == []
    || match RelationOf(schema, cls, segs[0])
       case None => Covered(A, schema, cls, prefix, segs[1..])
       case Some(rel) => prefix + segs[0] in Keys(A) && Covered(A, schema, rel.target, prefix + segs[0] + ".", segs[1..])
  }

  lemma {:induction false} CoveredMono(A: seq<(string, Query.Clause)>, B: seq<(string, Query.Clause)>, schema: Schema,
                                       cls: string, prefix: string, segs: seq<string>)
    requires Covered(A, schema, cls, prefix, segs)
    requires forall x :: x in Keys(A) ==> x in Keys(B)
    decreases |segs|
    ensures Covered(B, schema, cls, prefix, segs)
  {
    if segs != [] {
      match RelationOf(schema, cls, segs[0])
      case None => CoveredMono(A, B, schema, cls, prefix, segs[1..]);
      case Some(rel) => CoveredMono(A, B, schema, rel.target, prefix + segs[0] + ".", segs[1..]);
    }
  }

  /** A walk whose every relation is already joined under its alias adds no join, registers
      nothing and cannot fail. */
  lemma {:induction false} CoveredHops(st: Query.State, schema: Schema, cls: string, prefix: string, segs: seq<string>)
    requires Covered(st.aliases, schema, cls, prefix, segs)
    decreases |segs|
    ensures Hops(st, schema, cls, prefix, segs) == Query.Out(st, None)
  {
    if segs != [] {
      match RelationOf(schema, cls, segs[0])
      case None => CoveredHops(st, schema, cls, prefix, segs[1..]);
      case Some(rel) => CoveredHops(st, schema, rel.target, prefix + segs[0] + ".", segs[1..]);
    }
  }

  /** After a walk that succeeds, every relation along the path is joined under its alias. */
  lemma {:induction false} HopsCovers(st: Query.State, schema: Schema, cls: string, prefix: string, segs: seq<string>)
    requires |st.quote| == 1
    requires Hops(st, schema, cls, prefix, segs).err.None?
    decreases |segs|
    ensures Covered(Hops(st, schema, cls, prefix, segs).st.aliases, schema, cls, prefix, segs)
  {
    var r := Hops(st, schema, cls, prefix, segs);
    if segs != [] {
      match RelationOf(schema, cls, segs[0])
      case None => HopsCovers(st, schema, cls, prefix, segs[1..]);
      case Some(rel) =>
        var realAlias := prefix + segs[0];
        if realAlias in Keys(st.aliases) {
          HopsCovers(st, schema, rel.target, realAlias + ".", segs[1..]);
          HopsExtends(st, schema, rel.target, realAlias + ".", segs[1..]);
          assert Get(r.st.aliases, realAlias) == Get(st.aliases, realAlias);
        } else {
          var o := JoinHop(st, schema, rel, realAlias);
          JoinHopJoins(st, schema, rel, realAlias);
          HopsCovers(o.st, schema, rel.target, realAlias + ".", segs[1..]);
          HopsExtends(o.st, schema, rel.target, realAlias + ".", segs[1..]);
          assert Get(r.st.aliases, realAlias) == Get(o.st.aliases, realAlias);
        }
    }
  }

  /** A path none of whose segments names a relation of the class is covered by any aliases,
      so its walk adds no join. */
  lemma {:induction false} UnrelatedCovered(A: seq<(string, Query.Clause)>, schema: Schema, cls: string, prefix: string,
                                            segs: seq<string>)
    requires forall i :: 0 <= i < |segs| ==> RelationOf(schema, cls, segs[i]).None?
    decreases |segs|
    ensures Covered(A, schema, cls, prefix, segs)
  {
    if segs != [] {
      assert RelationOf(schema, cls, segs[0]).None?;
      forall i | 0 <= i < |segs| - 1 ensures RelationOf(schema, cls, segs[1..][i]).None? {
        assert segs[1..][i] == segs[i + 1];
      }
      UnrelatedCovered(A, schema, cls, prefix, segs[1..]);
    }
  }

  // ---------------------------------------------------------------------
  // parseExpression

  /** the outcome of parsing one fragment: the state, the rewritten fragment, and the
      spans (offset in the original fragment, length) of the paths it quoted */
  datatype Parsed = Parsed(o: Query.Out, text: string, spans: seq<(nat, nat)>)

  /** the path a match names: the match without its closing dot */
  function PathOf(m: string): string {
    if m == [] then [] else m[..|m| - 1]
  }

  /** `substr_replace($s, $q, $i, 0)` */
  function InsertAt(s: string, i: nat, q: string): string {
    if i <= |s| then s[..i] + q + s[i..] else s + q
  }

  /** the loop of parseExpression over the matches: a registered path is passed over; any
      other path is quoted when it has several segments, and walked. With fixed, the walk
      is Hops and each quote goes where the path now stands in the rewritten text (shift
      counts the quote characters already inserted); without, the walk is HopsAsWritten
      and the quotes go at the offsets of the original text. */
  function ParseMatches(st: Query.State, schema: Schema, cls: string, text: string, ms: seq<(nat, string)>,
                        shift: nat, fixed: bool): Parsed
    decreases |ms|
  {
    if ms == [] then Parsed(Query.Out(st, None), text, [])
    else
      var off, path := ms[0].0, PathOf(ms[0].1);
      if path in Keys(st.aliases) then ParseMatches(st, schema, cls, text, ms[1..], shift, fixed)
      else
        var segs := Explode(path);
        var quoted := |segs| > 1;
        var text' := if quoted then QuotePath(text, off, |path|, st.quote, shift, fixed) else text;
        var span: seq<(nat, nat)> := if quoted then [(off, |path|)] else [];
        var o := Walk(st, schema, cls, segs, fixed);
        if o.err.Some? then Parsed(o, text', span)
        else
          var rest := ParseMatches(o.st, schema, cls, text', ms[1..], if quoted then shift + 2 * |st.quote| else shift, fixed);
          Parsed(rest.o, rest.text, span + rest.spans)
  }

  /** the two quote characters around a path of length len at offset off: with fixed, where
      the path stands after shift inserted characters; without, at the original offset and
      one character past the path's end */
  function QuotePath(text: string, off: nat, len: nat, q: string, shift: nat, fixed: bool): string {
    var at := if fixed then off + shift else off;
    InsertAt(InsertAt(text, at, q), at + len + (if fixed then |q| else 1), q)
  }

  function Walk(st: Query.State, schema: Schema, cls: string, segs: seq<string>, fixed: bool): Query.Out {
    if fixed then Hops(st, schema, cls, "", segs) else HopsAsWritten(st, schema, cls, "", segs)
  }

  /** `parseExpression($expression)` with the walk and the quoting corrected */
  function ParseExpression(st: Query.State, schema: Schema, cls: string, e: string): Parsed {
    ParseMatches(st, schema, cls, e, Matches(e, 0), 0, true)
  }

  /** `parseExpression($expression)` as the source writes it */
  function ParseExpressionAsWritten(st: Query.State, schema: Schema, cls: string, e: string): Parsed {
    ParseMatches(st, schema, cls, e, Matches(e, 0), 0, false)
  }

  lemma WalkExtends(st: Query.State, schema: Schema, cls: string, segs: seq<string>, fixed: bool)
    requires |st.quote| == 1
    ensures Extends(st, Walk(st, schema, cls, segs, fixed).st)
  {
    if fixed { HopsExtends(st, schema, cls, "", segs); } else { HopsAsWrittenExtends(st, schema, cls, "", segs); }
  }

  lemma WalkQuote(st: Query.State, schema: Schema, cls: string, segs: seq<string>, fixed: bool)
    requires |st.quote| == 1
    ensures Walk(st, schema, cls, segs, fixed).st.quote == st.quote
  {
    WalkExtends(st, schema, cls, segs, fixed);
  }

  lemma {:induction false} ParseExtends(st: Query.State, schema: Schema, cls: string, text: string, ms: seq<(nat, string)>,
                                        shift: nat, fixed: bool)
    requires |st.quote| == 1
    decreases |ms|
    ensures Extends(st, ParseMatches(st, schema, cls, text, ms, shift, fixed).o.st)
  {
    if ms != [] {
      var off, path := ms[0].0, PathOf(ms[0].1);
      if path in Keys(st.aliases) {
        ParseExtends(st, schema, cls, text, ms[1..], shift, fixed);
      } else {
        var segs := Explode(path);
        var quoted := |segs| > 1;
        var text' := if quoted then QuotePath(text, off, |path|, st.quote, shift, fixed) else text;
        var o := Walk(st, schema, cls, segs, fixed);
        WalkExtends(st, schema, cls, segs, fixed);
        if o.err.None? {
          var shift' := if quoted then shift + 2 * |st.quote| else shift;
          ParseExtends(o.st, schema, cls, text', ms[1..], shift', fixed);
          ExtendsTrans(st, o.st, ParseMatches(o.st, schema, cls, text', ms[1..], shift', fixed).o.st);
        }
      }
    }
  }

  /** the path of the match is registered, or every relation it walks is joined */
  ghost predicate Settled(A: seq<(string, Query.Clause)>, schema: Schema, cls: string, m: string) {
    PathOf(m) in Keys(A) || Covered(A, schema, cls, "", Explode(PathOf(m)))
  }

  ghost predicate Resolved(A: seq<(string, Query.Clause)>, schema: Schema, cls: string, ms: seq<(nat, string)>) {
    forall i :: 0 <= i < |ms| ==> Settled(A, schema, cls, ms[i].1)
  }

  lemma SettledMono(A: seq<(string, Query.Clause)>, B: seq<(string, Query.Clause)>, schema: Schema, cls: string, m: string)
    requires Settled(A, schema, cls, m)
    requires forall x :: x in Keys(A) ==> x in Keys(B)
    ensures Settled(B, schema, cls, m)
  {
    if PathOf(m) !in Keys(A) {
      CoveredMono(A, B, schema, cls, "", Explode(PathOf(m)));
    }
  }

  /** After a parse that succeeds, every path of the fragment is registered or joined. */
  lemma {:induction false} ParseResolves(st: Query.State, schema: Schema, cls: string, text: string, ms: seq<(nat, string)>,
                                         shift: nat)
    requires |st.quote| == 1
    requires ParseMatches(st, schema, cls, text, ms, shift, true).o.err.None?
    decreases |ms|
    ensures Resolved(ParseMatches(st, schema, cls, text, ms, shift, true).o.st.aliases, schema, cls, ms)
  {
    var r := ParseMatches(st, schema, cls, text, ms, shift, true);
    if ms != [] {
      var off, path := ms[0].0, PathOf(ms[0].1);
      var s1: Query.State;
      var text': string;
      var shift': nat;
      if path in Keys(st.aliases) {
        s1, text', shift' := st, text, shift;
        assert Settled(s1.aliases, schema, cls, ms[0].1);
      } else {
        var segs := Explode(path);
        var quoted := |segs| > 1;
        text' := if quoted then QuotePath(text, off, |path|, st.quote, shift, true) else text;
        shift' := if quoted then shift + 2 * |st.quote| else shift;
        s1 := Hops(st, schema, cls, "", segs).st;
        HopsCovers(st, schema, cls, "", segs);
        HopsExtends(st, schema, cls, "", segs);
      }
      assert r.o == ParseMatches(s1, schema, cls, text', ms[1..], shift', true).o;
      ParseResolves(s1, schema, cls, text', ms[1..], shift');
      ParseExtends(s1, schema, cls, text', ms[1..], shift', true);
      SettledMono(s1.aliases, r.o.st.aliases, schema, cls, ms[0].1);
      forall i | 0 <= i < |ms| ensures Settled(r.o.st.aliases, schema, cls, ms[i].1) {
        if i > 0 { assert ms[i] == ms[1..][i - 1]; }
      }
    }
  }

  lemma ResolvedTail(A: seq<(string, Query.Clause)>, schema: Schema, cls: string, ms: seq<(nat, string)>)
    requires ms != [] && Resolved(A, schema, cls, ms)
    ensures Settled(A, schema, cls, ms[0].1) && Resolved(A, schema, cls, ms[1..])
  {
    forall i | 0 <= i < |ms| - 1 ensures Settled(A, schema, cls, ms[1..][i].1) {
      assert ms[1..][i] == ms[i + 1];
    }
  }

  /** a match whose path is walked without effect leaves the rest of the parse to run from
      the same state */
  lemma ParseMatchesNoOp(st: Query.State, schema: Schema, cls: string, text: string, ms: seq<(nat, string)>, shift: nat)
    requires ms != [] && PathOf(ms[0].1) !in Keys(st.aliases)
    requires Walk(st, schema, cls, Explode(PathOf(ms[0].1)), true) == Query.Out(st, None)
    ensures var path := PathOf(ms[0].1);
            var quoted := |Explode(path)| > 1;
            ParseMatches(st, schema, cls, text, ms, shift, true).o
            == ParseMatches(st, schema, cls, if quoted then QuotePath(text, ms[0].0, |path|, st.quote, shift, true) else text,
                            ms[1..], if quoted then shift + 2 * |st.quote| else shift, true).o
  {
  }

  /** A parse of paths that are all registered or joined adds no join and cannot fail. */
  lemma {:induction false} ParseResolved(st: Query.State, schema: Schema, cls: string, text: string, ms: seq<(nat, string)>,
                                         shift: nat)
    requires Resolved(st.aliases, schema, cls, ms)
    decreases |ms|
    ensures ParseMatches(st, schema, cls, text, ms, shift, true).o == Query.Out(st, None)
  {
    if ms != [] {
      ResolvedTail(st.aliases, schema, cls, ms);
      var path := PathOf(ms[0].1);
      if path in Keys(st.aliases) {
        ParseResolved(st, schema, cls, text, ms[1..], shift);
      } else {
        CoveredHops(st, schema, cls, "", Explode(path));
        ParseMatchesNoOp(st, schema, cls, text, ms, shift);
        var quoted := |Explode(path)| > 1;
        ParseResolved(st, schema, cls, if quoted then QuotePath(text, ms[0].0, |path|, st.quote, shift, true) else text,
                      ms[1..], if quoted then shift + 2 * |st.quote| else shift);
      }
    }
  }

  /** Parsing the same fragment again, after a parse that succeeded, adds no join. */
  lemma ParseAgainAddsNothing(st: Query.State, schema: Schema, cls: string, e: string)
    requires |st.quote| == 1
    requires ParseExpression(st, schema, cls, e).o.err.None?
    ensures var s := ParseExpression(st, schema, cls, e).o.st;
            ParseExpression(s, schema, cls, e).o == Query.Out(s, None)
  {
    var s := ParseExpression(st, schema, cls, e).o.st;
    ParseResolves(st, schema, cls, e, Matches(e, 0), 0);
    ParseResolved(s, schema, cls, e, Matches(e, 0), 0);
  }

  /** the spans lie in e from `from` on, in order and without overlapping */
  ghost predicate SpansOk(e: string, spans: seq<(nat, nat)>, from: nat)
    decreases |spans|
  {
    if spans == [] then from <= |e|
    else from <= spans[0].0 && spans[0].0 + spans[0].1 <= |e| && SpansOk(e, spans[1..], spans[0].0 + spans[0].1)
  }

  /** e from `from` on with the quote q put around each span: the fragment as it reads once
      its paths are quoted */
  ghost function Wrapped(e: string, spans: seq<(nat, nat)>, q: string, from: nat): string
    requires SpansOk(e, spans, from)
    decreases |spans|
  {
    if spans == [] then e[from..]
    else
      var off, n := spans[0].0, spans[0].1;
      e[from..off] + q + e[off..off + n] + q + Wrapped(e, spans[1..], q, off + n)
  }

  lemma WrappedCons(e: string, off: nat, n: nat, rest: seq<(nat, nat)>, q: string, from: nat)
    requires from <= off && off + n <= |e| && SpansOk(e, rest, off + n)
    ensures SpansOk(e, [(off, n)] + rest, from)
    ensures Wrapped(e, [(off, n)] + rest, q, from) == e[from..off] + q + e[off..off + n] + q + Wrapped(e, rest, q, off + n)
  {
    assert ([(off, n)] + rest)[1..] == rest;
  }

  /** inserting at the end of a prefix puts the insertion between the two parts */
  lemma InsertAtJoin(a: string, b: string, q: string)
    ensures InsertAt(a + b, |a|, q) == a + q + b
  {
    assert (a + b)[..|a|] == a;
    assert (a + b)[|a|..] == b;
  }

  lemma QuotePathSplit(P: string, e: string, from: nat, off: nat, n: nat, q: string, shift: nat)
    requires |P| == from + shift && from <= off && off + n <= |e|
    ensures QuotePath(P + e[from..], off, n, q, shift, true) == P + e[from..off] + q + e[off..off + n] + q + e[off + n..]
  {
    var a := P + e[from..off];
    assert e[from..] == e[from..off] + e[off..];
    assert P + e[from..] == a + e[off..];
    InsertAtJoin(a, e[off..], q);
    var b := a + q + e[off..off + n];
    assert e[off..] == e[off..off + n] + e[off + n..];
    assert a + q + e[off..] == b + e[off + n..];
    InsertAtJoin(b, e[off + n..], q);
  }

  /** the parsed text is P followed by e from `from` on with its spans quoted */
  ghost predicate WrappedFrom(e: string, r: Parsed, q: string, from: nat, P: string) {
    SpansOk(e, r.spans, from) && r.text == P + Wrapped(e, r.spans, q, from)
  }

  /** With the corrected offsets, the parsed fragment is the original with a quote before and
      after each path of several segments, and nothing else changed; r names the parse. */
  lemma {:induction false} ParseText(st: Query.State, schema: Schema, cls: string, e: string, text: string,
                                     ms: seq<(nat, string)>, shift: nat, from: nat, P: string)
    requires |st.quote| == 1
    requires MatchesFrom(e, ms, from) && from <= |e|
    requires text == P + e[from..] && |P| == from + shift
    decreases |ms|, 1
    ensures WrappedFrom(e, ParseMatches(st, schema, cls, text, ms, shift, true), st.quote, from, P)
  {
    if ms != [] {
      var off, m := ms[0].0, ms[0].1;
      var path := PathOf(m);
      assert |m| >= 2 && from <= off && off + |m| <= |e| && MatchesFrom(e, ms[1..], off + |m|);
      MatchesFromWeaken(e, ms[1..], off + |m|, from);
      if path in Keys(st.aliases) {
        ParseStepPlain(st, schema, cls, text, ms, shift);
        ParseText(st, schema, cls, e, text, ms[1..], shift, from, P);
      } else if |Explode(path)| > 1 {
        if Walk(st, schema, cls, Explode(path), true).err.None? {
          QuotedWalked(st, schema, cls, e, text, ms, shift, from, P);
        } else {
          QuotedStopped(st, schema, cls, e, text, ms, shift, from, P);
        }
      } else {
        ParseStepPlain(st, schema, cls, text, ms, shift);
        var o := Walk(st, schema, cls, Explode(path), true);
        WalkQuote(st, schema, cls, Explode(path), true);
        if o.err.None? {
          ParseText(o.st, schema, cls, e, text, ms[1..], shift, from, P);
        }
      }
    }
  }

  /** one step of the corrected parse at a registered path or a path of one segment: the
      text is left as it is */
  lemma ParseStepPlain(st: Query.State, schema: Schema, cls: string, text: string, ms: seq<(nat, string)>, shift: nat)
    requires ms != [] && (PathOf(ms[0].1) in Keys(st.aliases) || |Explode(PathOf(ms[0].1))| <= 1)
    ensures var o := if PathOf(ms[0].1) in Keys(st.aliases) then Query.Out(st, None)
                     else Walk(st, schema, cls, Explode(PathOf(ms[0].1)), true);
            ParseMatches(st, schema, cls, text, ms, shift, true) ==
              if o.err.Some? then Parsed(o, text, [])
              else var rest := ParseMatches(o.st, schema, cls, text, ms[1..], shift, true);
                   Parsed(rest.o, rest.text, rest.spans)
  {
    assert [] + ParseMatches(st, schema, cls, text, ms[1..], shift, true).spans == ParseMatches(st, schema, cls, text, ms[1..], shift, true).spans;
  }

  /** one step of the corrected parse at a path of several segments that is not registered */
  lemma ParseStepQuoted(st: Query.State, schema: Schema, cls: string, text: string, ms: seq<(nat, string)>, shift: nat)
    requires ms != [] && PathOf(ms[0].1) !in Keys(st.aliases) && |Explode(PathOf(ms[0].1))| > 1
    ensures var off, n := ms[0].0, |PathOf(ms[0].1)|;
            var o := Walk(st, schema, cls, Explode(PathOf(ms[0].1)), true);
            var text' := QuotePath(text, off, n, st.quote, shift, true);
            var r := ParseMatches(st, schema, cls, text, ms, shift, true);
            && (o.err.Some? ==> r.text == text' && r.spans == [(off, n)])
            && (o.err.None? ==>
                  var rest := ParseMatches(o.st, schema, cls, text', ms[1..], shift + 2 * |st.quote|, true);
                  r.text == rest.text && r.spans == [(off, n)] + rest.spans)
  {
  }

  lemma Regroup(P: string, a: string, q: string, b: string, w: string)
    ensures P + (a + q + b + q + w) == (P + a + q + b + q) + w
  {
  }

  /** the quoted path resolves: the rest of the fragment is parsed after it */
  lemma {:induction false} QuotedWalked(st: Query.State, schema: Schema, cls: string, e: string, text: string,
                                        ms: seq<(nat, string)>, shift: nat, from: nat, P: string)
    requires |st.quote| == 1
    requires ms != [] && PathOf(ms[0].1) !in Keys(st.aliases) && |Explode(PathOf(ms[0].1))| > 1
    requires |ms[0].1| >= 2 && from <= ms[0].0 && ms[0].0 + |ms[0].1| <= |e| && MatchesFrom(e, ms[1..], ms[0].0 + |ms[0].1|)
    requires text == P + e[from..] && |P| == from + shift
    requires Walk(st, schema, cls, Explode(PathOf(ms[0].1)), true).err.None?
    decreases |ms|, 0
    ensures WrappedFrom(e, ParseMatches(st, schema, cls, text, ms, shift, true), st.quote, from, P)
  {
    var s1 := Walk(st, schema, cls, Explode(PathOf(ms[0].1)), true).st;
    var t', P', off, n := QuotedPrep(st, schema, cls, e, text, ms, shift, from, P);
    QuotedRest(s1, schema, cls, e, t', ms[1..], shift + 2 * |st.quote|, off, n, P', from, P,
               ParseMatches(st, schema, cls, text, ms, shift, true));
  }

  /** the rest of the fragment, parsed after a quoted path, joined to it */
  lemma {:induction false} QuotedRest(s1: Query.State, schema: Schema, cls: string, e: string, t': string,
                                      ms: seq<(nat, string)>, shift': nat, off: nat, n: nat, P': string, from: nat,
                                      P: string, r: Parsed)
    requires |s1.quote| == 1
    requires from <= off && off + n <= |e| && MatchesFrom(e, ms, off + n)
    requires t' == P' + e[off + n..] && |P'| == off + n + shift'
    requires P' == P + e[from..off] + s1.quote + e[off..off + n] + s1.quote
    requires var rest := ParseMatches(s1, schema, cls, t', ms, shift', true);
             r.text == rest.text && r.spans == [(off, n)] + rest.spans
    decreases |ms|, 2
    ensures WrappedFrom(e, r, s1.quote, from, P)
  {
    ParseText(s1, schema, cls, e, t', ms, shift', off + n, P');
    JoinWrapped(e, off, n, ParseMatches(s1, schema, cls, t', ms, shift', true), s1.quote, s1.quote, from, P, P', r);
  }

  /** the text and prefix the parse goes on from after a resolved quoted path */
  lemma QuotedPrep(st: Query.State, schema: Schema, cls: string, e: string, text: string,
                   ms: seq<(nat, string)>, shift: nat, from: nat, P: string)
    returns (t': string, P': string, off: nat, n: nat)
    requires |st.quote| == 1
    requires ms != [] && PathOf(ms[0].1) !in Keys(st.aliases) && |Explode(PathOf(ms[0].1))| > 1
    requires |ms[0].1| >= 2 && from <= ms[0].0 && ms[0].0 + |ms[0].1| <= |e| && MatchesFrom(e, ms[1..], ms[0].0 + |ms[0].1|)
    requires text == P + e[from..] && |P| == from + shift
    requires Walk(st, schema, cls, Explode(PathOf(ms[0].1)), true).err.None?
    ensures var s1 := Walk(st, schema, cls, Explode(PathOf(ms[0].1)), true).st;
            |s1.quote| == 1 && s1.quote == st.quote
    ensures from <= off && off + n <= |e| && MatchesFrom(e, ms[1..], off + n)
    ensures t' == P' + e[off + n..] && |P'| == off + n + (shift + 2 * |st.quote|)
    ensures P' == P + e[from..off] + st.quote + e[off..off + n] + st.quote
    ensures var s1 := Walk(st, schema, cls, Explode(PathOf(ms[0].1)), true).st;
            var rest := ParseMatches(s1, schema, cls, t', ms[1..], shift + 2 * |st.quote|, true);
            var r := ParseMatches(st, schema, cls, text, ms, shift, true);
            r.text == rest.text && r.spans == [(off, n)] + rest.spans
  {
    var q := st.quote;
    off, n := ms[0].0, |PathOf(ms[0].1)|;
    t', P' := QuotePath(text, off, n, q, shift, true), P + e[from..off] + q + e[off..off + n] + q;
    ParseStepQuoted(st, schema, cls, text, ms, shift);
    WalkQuote(st, schema, cls, Explode(PathOf(ms[0].1)), true);
    QuotePathSplit(P, e, from, off, n, q, shift);
    MatchesFromWeaken(e, ms[1..], off + |ms[0].1|, off + n);
  }

  /** the quoted path does not resolve: the parse stops after quoting it */
  lemma QuotedStopped(st: Query.State, schema: Schema, cls: string, e: string, text: string,
                      ms: seq<(nat, string)>, shift: nat, from: nat, P: string)
    requires ms != [] && PathOf(ms[0].1) !in Keys(st.aliases) && |Explode(PathOf(ms[0].1))| > 1
    requires from <= ms[0].0 && ms[0].0 + |ms[0].1| <= |e|
    requires text == P + e[from..] && |P| == from + shift
    requires Walk(st, schema, cls, Explode(PathOf(ms[0].1)), true).err.Some?
    ensures WrappedFrom(e, ParseMatches(st, schema, cls, text, ms, shift, true), st.quote, from, P)
  {
    var r := ParseMatches(st, schema, cls, text, ms, shift, true);
    var q := st.quote;
    var off, n := ms[0].0, |PathOf(ms[0].1)|;
    QuotePathSplit(P, e, from, off, n, q, shift);
    ParseStepQuoted(st, schema, cls, text, ms, shift);
    var P' := P + e[from..off] + q + e[off..off + n] + q;
    var rest := Parsed(r.o, r.text, []);
    assert r.text == P' + e[off + n..] && r.spans == [(off, n)];
    assert WrappedFrom(e, rest, q, off + n, P');
    JoinWrapped(e, off, n, rest, q, q, from, P, P', r);
  }

  /** a quoted path in front of a wrapped rest is one more wrapped span */
  lemma JoinWrapped(e: string, off: nat, n: nat, rest: Parsed, q: string, q': string, from: nat, P: string, P': string,
                    r: Parsed)
    requires from <= off && off + n <= |e| && q' == q
    requires WrappedFrom(e, rest, q', off + n, P') && P' == P + e[from..off] + q + e[off..off + n] + q
    requires r.text == rest.text && r.spans == [(off, n)] + rest.spans
    ensures WrappedFrom(e, r, q, from, P)
  {
    WrappedCons(e, off, n, rest.spans, q, from);
    Regroup(P, e[from..off], q, e[off..off + n], Wrapped(e, rest.spans, q, off + n));
  }

  /** parseExpression, corrected, quotes exactly the paths it reports and changes nothing else */
  lemma ParseExpressionQuotes(st: Query.State, schema: Schema, cls: string, e: string)
    requires |st.quote| == 1
    ensures var r := ParseExpression(st, schema, cls, e);
            SpansOk(e, r.spans, 0) && r.text == Wrapped(e, r.spans, st.quote, 0)
  {
    MatchesSound(e, 0);
    ParseText(st, schema, cls, e, e, Matches(e, 0), 0, 0, "");
  }

  lemma ExamplePaths(e: string)
    requires e == "a.b.x+c.d.y"
    ensures PathAt(e, 0) == 4 && PathAt(e, 4) == 0 && PathAt(e, 5) == 0
    ensures PathAt(e, 6) == 4 && PathAt(e, 10) == 0
  {
    ExampleRuns(e);
    assert e[1] == '.' && e[3] == '.' && e[5] == '+' && e[7] == '.' && e[9] == '.';
    assert PathAt(e, 4) == 0 && PathAt(e, 2) == 2;
    assert PathAt(e, 10) == 0 && PathAt(e, 8) == 2;
  }

  lemma ExampleRuns(e: string)
    requires e == "a.b.x+c.d.y"
    ensures WordRun(e, 10) == 1 && WordRun(e, 9) == 0 && WordRun(e, 8) == 1
    ensures WordRun(e, 7) == 0 && WordRun(e, 6) == 1 && WordRun(e, 5) == 0 && WordRun(e, 4) == 1
    ensures WordRun(e, 3) == 0 && WordRun(e, 2) == 1 && WordRun(e, 1) == 0 && WordRun(e, 0) == 1
  {
    assert e[0] == 'a' && e[1] == '.' && e[2] == 'b' && e[3] == '.' && e[4] == 'x' && e[5] == '+';
    assert e[6] == 'c' && e[7] == '.' && e[8] == 'd' && e[9] == '.' && e[10] == 'y';
    assert WordRun(e, 11) == 0;
  }

  lemma ExampleMatches(e: string)
    requires e == "a.b.x+c.d.y"
    ensures Matches(e, 0) == [(0, "a.b."), (6, "c.d.")]
  {
    ExamplePaths(e);
    assert Matches(e, 11) == [];
    assert Matches(e, 10) == Matches(e, 11);
    assert Matches(e, 6) == [(6, e[6..10])] + Matches(e, 10);
    assert e[6..10] == "c.d.";
    assert Matches(e, 5) == Matches(e, 6);
    assert Matches(e, 4) == Matches(e, 5);
    assert Matches(e, 0) == [(0, e[0..4])] + Matches(e, 4);
    assert e[0..4] == "a.b.";
  }

  lemma ExplodePair(x: char, y: char)
    requires x != '.' && y != '.'
    ensures Explode([x, '.', y]) == [[x], [y]]
  {
    var s1, s2, s3 := [x], [x, '.'], [x, '.', y];
    assert s3[..2] == s2 && s2[..1] == s1 && s1[..0] == [];
    var i0 := Explode(s1[..0]);
    assert i0 == [[]];
    assert i0[0] + [x] == [x] && i0[..0] == [];
    assert Explode(s1) == [[x]];
    assert Explode(s2) == [[x], []];
    var i2 := Explode(s3[..2]);
    assert i2[1] + [y] == [y] && i2[..1] == [[x]];
  }

  lemma ExampleExplode()
    ensures PathOf("a.b.") == "a.b" && PathOf("c.d.") == "c.d"
    ensures Explode("a.b") == ["a", "b"] && Explode("c.d") == ["c", "d"]
  {
    assert "a.b."[..3] == "a.b" && "c.d."[..3] == "c.d";
    ExplodePair('a', 'b');
    ExplodePair('c', 'd');
    assert "a.b" == ['a', '.', 'b'] && "c.d" == ['c', '.', 'd'];
  }

  /** a schema in which no class has a relation: every walk is the identity */
  lemma EmptySchemaWalk(st: Query.State, x: string, y: string, fixed: bool)
    ensures Walk(st, map[], "R", [x, y], fixed) == Query.Out(st, None)
  {
    assert [x, y][1..] == [y];
    assert RelationOf(map[], "R", x).None? && RelationOf(map[], "R", y).None?;
    if fixed {
      assert Hops(st, map[], "R", "", [y]) == Query.Out(st, None);
    } else {
      assert HopsAsWritten(st, map[], "R", "", [y]) == Query.Out(st, None);
    }
  }

  lemma ExampleQuotes(e: string)
    requires e == "a.b.x+c.d.y"
    ensures QuotePath(QuotePath(e, 0, 3, "`", 0, false), 6, 3, "`", 2, false) == "`a.b`.`x+c`.d.y"
    ensures QuotePath(QuotePath(e, 0, 3, "`", 0, true), 6, 3, "`", 2, true) == "`a.b`.x+`c.d`.y"
  {
    ExampleInsert1();
    ExampleInsert2();
    ExampleInsert3();
    ExampleInsert4();
    ExampleInsert5();
    ExampleInsert6();
  }

  lemma ExampleInsert1()
    ensures InsertAt("a.b.x+c.d.y", 0, "`") == "`a.b.x+c.d.y"
  {
    InsertSplit("a.b.x+c.d.y", 0, "`", "", "a.b.x+c.d.y");
    assert "" + "`" + "a.b.x+c.d.y" == "`a.b.x+c.d.y";
  }

  lemma ExampleInsert2()
    ensures InsertAt("`a.b.x+c.d.y", 4, "`") == "`a.b`.x+c.d.y"
  {
    InsertSplit("`a.b.x+c.d.y", 4, "`", "`a.b", ".x+c.d.y");
    assert "`a.b" + "`" + ".x+c.d.y" == "`a.b`.x+c.d.y";
  }

  lemma ExampleInsert3()
    ensures InsertAt("`a.b`.x+c.d.y", 6, "`") == "`a.b`.`x+c.d.y"
  {
    InsertSplit("`a.b`.x+c.d.y", 6, "`", "`a.b`.", "x+c.d.y");
    assert "`a.b`." + "`" + "x+c.d.y" == "`a.b`.`x+c.d.y";
  }

  lemma ExampleInsert4()
    ensures InsertAt("`a.b`.`x+c.d.y", 10, "`") == "`a.b`.`x+c`.d.y"
  {
    InsertSplit("`a.b`.`x+c.d.y", 10, "`", "`a.b`.`x+c", ".d.y");
    assert "`a.b`.`x+c" + "`" + ".d.y" == "`a.b`.`x+c`.d.y";
  }

  lemma ExampleInsert5()
    ensures InsertAt("`a.b`.x+c.d.y", 8, "`") == "`a.b`.x+`c.d.y"
  {
    InsertSplit("`a.b`.x+c.d.y", 8, "`", "`a.b`.x+", "c.d.y");
    assert "`a.b`.x+" + "`" + "c.d.y" == "`a.b`.x+`c.d.y";
  }

  lemma ExampleInsert6()
    ensures InsertAt("`a.b`.x+`c.d.y", 12, "`") == "`a.b`.x+`c.d`.y"
  {
    InsertSplit("`a.b`.x+`c.d.y", 12, "`", "`a.b`.x+`c.d", ".y");
    assert "`a.b`.x+`c.d" + "`" + ".y" == "`a.b`.x+`c.d`.y";
  }

  /** an insertion at the seam of two known halves */
  lemma InsertSplit(s: string, i: nat, q: string, a: string, b: string)
    requires s == a + b && |a| == i
    ensures InsertAt(s, i, q) == a + q + b
  {
    assert s[..i] == a && s[i..] == b;
  }

  lemma ParseTwo(st: Query.State, e: string, m1: (nat, string), m2: (nat, string), fixed: bool)
    requires st.aliases == [] && st.quote == "`"
    requires |Explode(PathOf(m1.1))| == 2 && |Explode(PathOf(m2.1))| == 2
    ensures ParseMatches(st, map[], "R", e, [m1, m2], 0, fixed).text ==
              QuotePath(QuotePath(e, m1.0, |PathOf(m1.1)|, "`", 0, fixed), m2.0, |PathOf(m2.1)|, "`", 2, fixed)
  {
    var s1 := Explode(PathOf(m1.1));
    var s2 := Explode(PathOf(m2.1));
    assert s1 == [s1[0], s1[1]] && s2 == [s2[0], s2[1]];
    EmptySchemaWalk(st, s1[0], s1[1], fixed);
    EmptySchemaWalk(st, s2[0], s2[1], fixed);
    assert Keys(st.aliases) == [];
    var t1 := QuotePath(e, m1.0, |PathOf(m1.1)|, "`", 0, fixed);
    var shift := 2;
    var t2 := QuotePath(t1, m2.0, |PathOf(m2.1)|, "`", shift, fixed);
    assert ParseMatches(st, map[], "R", t1, [m2], shift, fixed).text == t2 by {
      assert [m2][1..] == [];
    }
    assert [m1, m2][1..] == [m2];
  }

  /** Two paths in one fragment, a.b.x+c.d.y: as written, the second path's quotes go at its
      offset in the original fragment, two characters short of where it stands once the first
      is quoted; corrected, both paths are quoted in place. */
  lemma QuoteOffsets(st: Query.State, e: string)
    requires st.aliases == [] && st.quote == "`" && e == "a.b.x+c.d.y"
    ensures ParseExpressionAsWritten(st, map[], "R", e).text == "`a.b`.`x+c`.d.y"
    ensures ParseExpression(st, map[], "R", e).text == "`a.b`.x+`c.d`.y"
  {
    ExampleMatches(e);
    ExampleExplode();
    ExampleQuotes(e);
    ParseTwo(st, e, (0, "a.b."), (6, "c.d."), false);
    ParseTwo(st, e, (0, "a.b."), (6, "c.d."), true);
  }

  /** The path a.c once a is joined (as after the fragment a.x = a.c.y), in a schema where the
      root class R has a relation a to A and none named c, and A has a relation c: as written,
      the walk finds the bare name a registered, passes over it without moving to A, then looks
      c up on R, finds nothing and adds no join, so the query refers to an alias a.c that was
      never joined; corrected, the walk follows a to A and joins c under the alias a.c. */
  lemma AutojoinHopSkip(st: Query.State, schema: Schema, ra: Meta.RelationMeta, rc: Meta.RelationMeta)
    requires st.aliases == [("a", Query.JoinClause)] && st.quote == "`" && !st.loaded
    requires RelationOf(schema, "R", "a") == Some(ra) && ra.target == "A" && RelationOf(schema, "R", "c").None?
    requires RelationOf(schema, "A", "c") == Some(rc) && !rc.kind.ManyToMany?
    ensures HopsAsWritten(st, schema, "R", "", ["a", "c"]) == Query.Out(st, None)
    ensures var o := Hops(st, schema, "R", "", ["a", "c"]);
            o.err.None? && Get(o.st.aliases, "a.c") == Some(Query.JoinClause) && |o.st.joins| == |st.joins| + 1
  {
    assert Keys(st.aliases) == ["a"];
    assert ["a", "c"][1..] == ["c"] && ["c"][1..] == [];
    assert HopsAsWritten(st, schema, "R", "", ["c"]) == Query.Out(st, None);
    HopSkipCorrected(st, schema, ra, rc);
  }

  lemma HopSkipCorrected(st: Query.State, schema: Schema, ra: Meta.RelationMeta, rc: Meta.RelationMeta)
    requires st.aliases == [("a", Query.JoinClause)] && st.quote == "`" && !st.loaded
    requires RelationOf(schema, "R", "a") == Some(ra) && ra.target == "A"
    requires RelationOf(schema, "A", "c") == Some(rc) && !rc.kind.ManyToMany?
    ensures var o := Hops(st, schema, "R", "", ["a", "c"]);
            o.err.None? && Get(o.st.aliases, "a.c") == Some(Query.JoinClause) && |o.st.joins| == |st.joins| + 1
  {
    assert Keys(st.aliases) == ["a"];
    assert ["a", "c"][1..] == ["c"] && ["c"][1..] == [];
    assert "" + "a" == "a" && "a" + "." == "a." && "a." + "c" == "a.c" && "a.c" + "." == "a.c.";
    assert "a.c" !in Keys(st.aliases);
    assert IsValidIdentifier("a.c") by { assert IdentChar("a.c"[0]); }
    JoinHopOne(st, schema, rc, "a.c");
    var o := JoinHop(st, schema, rc, "a.c");
    assert Hops(st, schema, "R", "", ["a", "c"]) == Hops(st, schema, "A", "a.", ["c"]);
    assert Hops(st, schema, "A", "a.", ["c"]) == Hops(o.st, schema, rc.target, "a.c.", []);
  }

  // ---------------------------------------------------------------------
  // autojoin

  /** the SELECT entries from position i on: those before skip and those that are not
      strings are left alone, the others parsed and written back */
  function SelectPhase(st: Query.State, schema: Schema, cls: string, skip: nat, i: nat): Query.Out
    decreases |st.select| - i
  {
    if i >= |st.select| then Query.Out(st, None)
    else if i < skip || !st.select[i].1.Text? then SelectPhase(st, schema, cls, skip, i + 1)
    else
      var p := ParseExpression(st, schema, cls, st.select[i].1.sql);
      var s := p.o.st.(select := st.select[i := (st.select[i].0, Query.Text(p.text))]);
      if p.o.err.Some? then Query.Out(s, p.o.err) else SelectPhase(s, schema, cls, skip, i + 1)
  }

  /** the string keys of ORDER BY from position i on, parsed but not written back */
  function OrderPhase(st: Query.State, schema: Schema, cls: string, keys: seq<Key>, i: nat): Query.Out
    decreases |keys| - i
  {
    if i >= |keys| then Query.Out(st, None)
    else if !keys[i].StrKey? then OrderPhase(st, schema, cls, keys, i + 1)
    else
      var p := ParseExpression(st, schema, cls, keys[i].s);
      if p.o.err.Some? then p.o else OrderPhase(p.o.st, schema, cls, keys, i + 1)
  }

  /** the WHERE fragments from position i on, parsed and written back */
  function WherePhase(st: Query.State, schema: Schema, cls: string, i: nat): Query.Out
    decreases |st.where| - i
  {
    if i >= |st.where| then Query.Out(st, None)
    else
      var p := ParseExpression(st, schema, cls, st.where[i]);
      var s := p.o.st.(where := st.where[i := p.text]);
      if p.o.err.Some? then Query.Out(s, p.o.err) else WherePhase(s, schema, cls, i + 1)
  }

  /** the GROUP BY strings from position i on, parsed and written back */
  function GroupPhase(st: Query.State, schema: Schema, cls: string, i: nat): Query.Out
    decreases |st.groupBy| - i
  {
    if i >= |st.groupBy| then Query.Out(st, None)
    else if !st.groupBy[i].1.Text? then GroupPhase(st, schema, cls, i + 1)
    else
      var p := ParseExpression(st, schema, cls, st.groupBy[i].1.sql);
      var s := p.o.st.(groupBy := st.groupBy[i := (st.groupBy[i].0, Query.Text(p.text))]);
      if p.o.err.Some? then Query.Out(s, p.o.err) else GroupPhase(s, schema, cls, i + 1)
  }

  /** `autojoin()`: nothing when smart join is off; otherwise SELECT, ORDER BY, WHERE and
      GROUP BY in that order, stopping at the first exception */
  function Autojoin(st: Query.State, schema: Schema, cls: string, skip: nat, smartJoin: bool): Query.Out {
    if !smartJoin then Query.Out(st, None)
    else
      var o1 := SelectPhase(st, schema, cls, skip, 0);
      if o1.err.Some? then o1 else LaterPhases(o1.st, schema, cls)
  }

  /** ORDER BY, WHERE and GROUP BY, the phases after SELECT */
  function LaterPhases(st: Query.State, schema: Schema, cls: string): Query.Out {
    var o2 := OrderPhase(st, schema, cls, Keys(st.orderBy), 0);
    if o2.err.Some? then o2
    else
      var o3 := WherePhase(o2.st, schema, cls, 0);
      if o3.err.Some? then o3 else GroupPhase(o3.st, schema, cls, 0)
  }

  /** the phases may rewrite the fragments of SELECT, WHERE and GROUP BY; everything else
      changes as a walk may change it */
  ghost predicate Rewrites(s: Query.State, s': Query.State) {
    Extends(s.(select := s'.select, where := s'.where, groupBy := s'.groupBy), s')
  }

  lemma RewritesTrans(s1: Query.State, s2: Query.State, s3: Query.State)
    requires Rewrites(s1, s2) && Rewrites(s2, s3)
    ensures Rewrites(s1, s3)
  {
    var a := s1.(select := s2.select, where := s2.where, groupBy := s2.groupBy);
    var b := s2.(select := s3.select, where := s3.where, groupBy := s3.groupBy);
    forall x | x in Keys(s1.aliases) ensures Get(s3.aliases, x) == Get(s1.aliases, x) {
      assert Get(s2.aliases, x) == Get(s1.aliases, x);
    }
  }

  /** a parse changes no fragment and not the quote */
  lemma ParseFrame(st: Query.State, schema: Schema, cls: string, e: string)
    requires |st.quote| == 1
    ensures var s := ParseExpression(st, schema, cls, e).o.st;
            s.select == st.select && s.where == st.where && s.groupBy == st.groupBy && s.quote == st.quote
  {
    ParseExtends(st, schema, cls, e, Matches(e, 0), 0, true);
  }

  /** writing a parsed fragment back after a parse: only the fragment changes besides what
      the parse changed */
  lemma WriteBack(st: Query.State, s1: Query.State)
    requires Extends(st, s1)
    ensures forall v :: Rewrites(st, s1.(select := v))
    ensures forall v :: Rewrites(st, s1.(where := v))
    ensures forall v :: Rewrites(st, s1.(groupBy := v))
  {
  }

  /** The SELECT phase only joins and rewrites SELECT entries. */
  lemma SelectPhaseRewrites(st: Query.State, schema: Schema, cls: string, skip: nat, i: nat)
    requires |st.quote| == 1
    ensures var o := SelectPhase(st, schema, cls, skip, i);
            Rewrites(st, o.st) && o.st.where == st.where && o.st.groupBy == st.groupBy
  {
    SelectPhaseJoins(st, schema, cls, skip, i);
    SelectPhaseFrame(st, schema, cls, skip, i);
  }

  lemma {:induction false} SelectPhaseJoins(st: Query.State, schema: Schema, cls: string, skip: nat, i: nat)
    requires |st.quote| == 1
    decreases |st.select| - i, 1
    ensures Rewrites(st, SelectPhase(st, schema, cls, skip, i).st)
  {
    if i < |st.select| && i >= skip && st.select[i].1.Text? {
      SelectPhaseJoinsParsed(st, schema, cls, skip, i);
    } else if i < |st.select| {
      SelectPhaseJoins(st, schema, cls, skip, i + 1);
    } else {
      RewritesRefl(st);
    }
  }

  /** the step of SelectPhaseJoins at an entry it parses */
  lemma {:induction false} SelectPhaseJoinsParsed(st: Query.State, schema: Schema, cls: string, skip: nat, i: nat)
    requires |st.quote| == 1
    requires i < |st.select| && i >= skip && st.select[i].1.Text?
    decreases |st.select| - i, 0
    ensures Rewrites(st, SelectPhase(st, schema, cls, skip, i).st)
  {
    var p := ParseExpression(st, schema, cls, st.select[i].1.sql);
    ParseExtends(st, schema, cls, st.select[i].1.sql, Matches(st.select[i].1.sql, 0), 0, true);
    WriteBack(st, p.o.st);
    var s := p.o.st.(select := st.select[i := (st.select[i].0, Query.Text(p.text))]);
    if p.o.err.None? {
      SelectPhaseJoins(s, schema, cls, skip, i + 1);
      RewritesTrans(st, s, SelectPhase(s, schema, cls, skip, i + 1).st);
    }
  }

  lemma {:induction false} SelectPhaseFrame(st: Query.State, schema: Schema, cls: string, skip: nat, i: nat)
    requires |st.quote| == 1
    decreases |st.select| - i
    ensures var o := SelectPhase(st, schema, cls, skip, i);
            o.st.where == st.where && o.st.groupBy == st.groupBy
  {
    if i < |st.select| && i >= skip && st.select[i].1.Text? {
      var p := ParseExpression(st, schema, cls, st.select[i].1.sql);
      ParseFrame(st, schema, cls, st.select[i].1.sql);
      var s := p.o.st.(select := st.select[i := (st.select[i].0, Query.Text(p.text))]);
      if p.o.err.None? {
        SelectPhaseFrame(s, schema, cls, skip, i + 1);
      }
    } else if i < |st.select| {
      SelectPhaseFrame(st, schema, cls, skip, i + 1);
    }
  }

  lemma RewritesRefl(st: Query.State)
    ensures Rewrites(st, st)
  {
    assert st.(select := st.select, where := st.where, groupBy := st.groupBy) == st;
  }

  /** a parse, GROUP BY written back, then a rest of the phase that only rewrites */
  lemma GroupWriteStep(st: Query.State, s1: Query.State, v: seq<(Key, Query.Src)>, o: Query.State)
    requires Extends(st, s1)
    requires Rewrites(s1.(groupBy := v), o) && o.select == s1.select && o.where == s1.where
    ensures Rewrites(st, o) && o.select == st.select && o.where == st.where
  {
    WriteBack(st, s1);
    RewritesTrans(st, s1.(groupBy := v), o);
  }

  /** after keeps every key of before, and every entry before i, before skip or not a
      string */
  ghost predicate KeepsShape(before: seq<(Key, Query.Src)>, after: seq<(Key, Query.Src)>, i: nat, skip: nat) {
    && |after| == |before|
    && forall j :: 0 <= j < |before| ==>
         && after[j].0 == before[j].0
         && (j < i || j < skip || !before[j].1.Text? ==> after[j] == before[j])
  }

  /** The SELECT phase keeps every entry's key and leaves the entries before skip and those
      that are not strings as they are. */
  lemma {:induction false} SelectPhaseShape(st: Query.State, schema: Schema, cls: string, skip: nat, i: nat)
    requires |st.quote| == 1
    decreases |st.select| - i, 1
    ensures KeepsShape(st.select, SelectPhase(st, schema, cls, skip, i).st.select, i, skip)
  {
    if i < |st.select| && i >= skip && st.select[i].1.Text? {
      SelectShapeText(st, schema, cls, skip, i);
    } else if i < |st.select| {
      SelectPhaseShape(st, schema, cls, skip, i + 1);
      ShapeSkip(st.select, SelectPhase(st, schema, cls, skip, i).st.select, i, skip);
    } else {
      assert SelectPhase(st, schema, cls, skip, i).st.select == st.select;
    }
  }

  /** the step of the SELECT phase that parses entry i */
  lemma {:induction false} SelectShapeText(st: Query.State, schema: Schema, cls: string, skip: nat, i: nat)
    requires |st.quote| == 1 && i < |st.select| && i >= skip && st.select[i].1.Text?
    decreases |st.select| - i, 0
    ensures KeepsShape(st.select, SelectPhase(st, schema, cls, skip, i).st.select, i, skip)
  {
    var after := SelectPhase(st, schema, cls, skip, i).st.select;
    var p := ParseExpression(st, schema, cls, st.select[i].1.sql);
    ParseFrame(st, schema, cls, st.select[i].1.sql);
    var s := p.o.st.(select := st.select[i := (st.select[i].0, Query.Text(p.text))]);
    if p.o.err.None? {
      SelectPhaseShape(s, schema, cls, skip, i + 1);
      assert after == SelectPhase(s, schema, cls, skip, i + 1).st.select;
    } else {
      assert after == s.select;
      assert KeepsShape(s.select, after, i + 1, skip);
    }
    ShapeKeep(st.select, Query.Text(p.text), after, i, skip);
  }

  /** entry i rewritten, and then the shape kept from i + 1 on: the shape holds from i on */
  lemma ShapeKeep(before: seq<(Key, Query.Src)>, x: Query.Src, after: seq<(Key, Query.Src)>, i: nat, skip: nat)
    requires i < |before| && i >= skip && before[i].1.Text?
    requires KeepsShape(before[i := (before[i].0, x)], after, i + 1, skip)
    ensures KeepsShape(before, after, i, skip)
  {
  }

  /** entry i left alone: the shape from i + 1 on holds from i on */
  lemma ShapeSkip(before: seq<(Key, Query.Src)>, after: seq<(Key, Query.Src)>, i: nat, skip: nat)
    requires i < |before| && (i < skip || !before[i].1.Text?)
    requires KeepsShape(before, after, i + 1, skip)
    ensures KeepsShape(before, after, i, skip)
  {
  }

  /** The ORDER BY phase writes nothing back: it only joins. */
  lemma {:induction false} OrderPhaseSpec(st: Query.State, schema: Schema, cls: string, keys: seq<Key>, i: nat)
    requires |st.quote| == 1
    decreases |keys| - i
    ensures Extends(st, OrderPhase(st, schema, cls, keys, i).st)
  {
    if i < |keys| {
      if keys[i].StrKey? {
        var p := ParseExpression(st, schema, cls, keys[i].s);
        ParseExtends(st, schema, cls, keys[i].s, Matches(keys[i].s, 0), 0, true);
        if p.o.err.None? {
          OrderPhaseSpec(p.o.st, schema, cls, keys, i + 1);
          ExtendsTrans(st, p.o.st, OrderPhase(p.o.st, schema, cls, keys, i + 1).st);
        }
      } else {
        OrderPhaseSpec(st, schema, cls, keys, i + 1);
      }
    }
  }

  /** The WHERE phase keeps the number of conditions and touches no other fragment. */
  lemma {:induction false} WherePhaseSpec(st: Query.State, schema: Schema, cls: string, i: nat)
    requires |st.quote| == 1
    decreases |st.where| - i
    ensures var o := WherePhase(st, schema, cls, i);
            && Rewrites(st, o.st) && o.st.select == st.select && o.st.groupBy == st.groupBy
            && |o.st.where| == |st.where|
  {
    if i < |st.where| {
      var p := ParseExpression(st, schema, cls, st.where[i]);
      ParseExtends(st, schema, cls, st.where[i], Matches(st.where[i], 0), 0, true);
      WriteBack(st, p.o.st);
      var s := p.o.st.(where := st.where[i := p.text]);
      if p.o.err.None? {
        WherePhaseSpec(s, schema, cls, i + 1);
        RewritesTrans(st, s, WherePhase(s, schema, cls, i + 1).st);
      }
    }
  }

  /** The GROUP BY phase only joins and rewrites GROUP BY entries. */
  lemma {:induction false} GroupPhaseRewrites(st: Query.State, schema: Schema, cls: string, i: nat)
    requires |st.quote| == 1
    decreases |st.groupBy| - i, 1
    ensures var o := GroupPhase(st, schema, cls, i);
            Rewrites(st, o.st) && o.st.select == st.select && o.st.where == st.where
  {
    if i < |st.groupBy| && st.groupBy[i].1.Text? {
      GroupPhaseRewritesParsed(st, schema, cls, i);
    } else if i < |st.groupBy| {
      GroupPhaseRewrites(st, schema, cls, i + 1);
    }
  }

  /** the step of GroupPhaseRewrites at an entry it parses */
  lemma {:induction false} GroupPhaseRewritesParsed(st: Query.State, schema: Schema, cls: string, i: nat)
    requires |st.quote| == 1
    requires i < |st.groupBy| && st.groupBy[i].1.Text?
    decreases |st.groupBy| - i, 0
    ensures var o := GroupPhase(st, schema, cls, i);
            Rewrites(st, o.st) && o.st.select == st.select && o.st.where == st.where
  {
    var p := ParseExpression(st, schema, cls, st.groupBy[i].1.sql);
    ParseExtends(st, schema, cls, st.groupBy[i].1.sql, Matches(st.groupBy[i].1.sql, 0), 0, true);
    var v := st.groupBy[i := (st.groupBy[i].0, Query.Text(p.text))];
    var s := p.o.st.(groupBy := v);
    if p.o.err.None? {
      GroupPhaseRewrites(s, schema, cls, i + 1);
      GroupWriteStep(st, p.o.st, v, GroupPhase(s, schema, cls, i + 1).st);
    } else {
      GroupWriteStep(st, p.o.st, v, s);
    }
  }

  /** The GROUP BY phase keeps every entry's key and leaves the entries that are not strings
      as they are. */
  lemma {:induction false} GroupPhaseShape(st: Query.State, schema: Schema, cls: string, i: nat)
    requires |st.quote| == 1
    decreases |st.groupBy| - i, 1
    ensures var o := GroupPhase(st, schema, cls, i);
            && |o.st.groupBy| == |st.groupBy|
            && forall j :: 0 <= j < |st.groupBy| ==>
                 && o.st.groupBy[j].0 == st.groupBy[j].0
                 && (!st.groupBy[j].1.Text? ==> o.st.groupBy[j] == st.groupBy[j])
  {
    if i < |st.groupBy| && st.groupBy[i].1.Text? {
      GroupPhaseShapeParsed(st, schema, cls, i);
    } else if i < |st.groupBy| {
      GroupPhaseShape(st, schema, cls, i + 1);
    }
  }

  /** the step of GroupPhaseShape at an entry it parses */
  lemma {:induction false} GroupPhaseShapeParsed(st: Query.State, schema: Schema, cls: string, i: nat)
    requires |st.quote| == 1
    requires i < |st.groupBy| && st.groupBy[i].1.Text?
    decreases |st.groupBy| - i, 0
    ensures var o := GroupPhase(st, schema, cls, i);
            && |o.st.groupBy| == |st.groupBy|
            && forall j :: 0 <= j < |st.groupBy| ==>
                 && o.st.groupBy[j].0 == st.groupBy[j].0
                 && (!st.groupBy[j].1.Text? ==> o.st.groupBy[j] == st.groupBy[j])
  {
    var p := ParseExpression(st, schema, cls, st.groupBy[i].1.sql);
    ParseFrame(st, schema, cls, st.groupBy[i].1.sql);
    var s := p.o.st.(groupBy := st.groupBy[i := (st.groupBy[i].0, Query.Text(p.text))]);
    if p.o.err.None? {
      GroupPhaseShape(s, schema, cls, i + 1);
      var o := GroupPhase(s, schema, cls, i + 1);
      assert GroupPhase(st, schema, cls, i) == o;
      forall j | 0 <= j < |st.groupBy|
        ensures o.st.groupBy[j].0 == st.groupBy[j].0
        ensures !st.groupBy[j].1.Text? ==> o.st.groupBy[j] == st.groupBy[j]
      {
        assert s.groupBy[j].0 == st.groupBy[j].0;
        if j != i { assert s.groupBy[j] == st.groupBy[j]; }
      }
    }
  }

  lemma LaterPhasesSpec(st: Query.State, schema: Schema, cls: string)
    requires |st.quote| == 1
    ensures var o := LaterPhases(st, schema, cls);
            && Rewrites(st, o.st) && o.st.select == st.select
            && |o.st.where| == |st.where| && |o.st.groupBy| == |st.groupBy|
            && (forall j :: 0 <= j < |st.groupBy| ==>
                  && o.st.groupBy[j].0 == st.groupBy[j].0
                  && (!st.groupBy[j].1.Text? ==> o.st.groupBy[j] == st.groupBy[j]))
  {
    var o2 := OrderPhase(st, schema, cls, Keys(st.orderBy), 0);
    OrderPhaseSpec(st, schema, cls, Keys(st.orderBy), 0);
    assert Rewrites(st, o2.st);
    if o2.err.None? {
      var o3 := WherePhase(o2.st, schema, cls, 0);
      WherePhaseSpec(o2.st, schema, cls, 0);
      RewritesTrans(st, o2.st, o3.st);
      if o3.err.None? {
        GroupPhaseRewrites(o3.st, schema, cls, 0);
        GroupPhaseShape(o3.st, schema, cls, 0);
        RewritesTrans(st, o3.st, GroupPhase(o3.st, schema, cls, 0).st);
      }
    }
  }

  /** autojoin does nothing with smart join off. Otherwise it only appends joins, registers
      aliases and rewrites string fragments in place: the SELECT entries before skip and the
      entries that are not strings keep their value, every entry keeps its key, ORDER BY and
      every other part of the query are unchanged. */
  lemma AutojoinSpec(st: Query.State, schema: Schema, cls: string, skip: nat, smartJoin: bool)
    requires |st.quote| == 1
    ensures var o := Autojoin(st, schema, cls, skip, smartJoin);
            && (!smartJoin ==> o == Query.Out(st, None))
            && Rewrites(st, o.st)
            && |o.st.select| == |st.select| && |o.st.where| == |st.where| && |o.st.groupBy| == |st.groupBy|
            && (forall j :: 0 <= j < |st.select| ==>
                  && o.st.select[j].0 == st.select[j].0
                  && (j < skip || !st.select[j].1.Text? ==> o.st.select[j] == st.select[j]))
            && (forall j :: 0 <= j < |st.groupBy| ==>
                  && o.st.groupBy[j].0 == st.groupBy[j].0
                  && (!st.groupBy[j].1.Text? ==> o.st.groupBy[j] == st.groupBy[j]))
  {
    if smartJoin {
      var o1 := SelectPhase(st, schema, cls, skip, 0);
      SelectPhaseRewrites(st, schema, cls, skip, 0);
      SelectPhaseShape(st, schema, cls, skip, 0);
      assert KeepsShape(st.select, o1.st.select, 0, skip);
      if o1.err.None? {
        LaterPhasesSpec(o1.st, schema, cls);
        RewritesTrans(st, o1.st, LaterPhases(o1.st, schema, cls).st);
      }
    }
  }
}

/** The repository-bound collection (`Collection`): a generic collection that knows its
    entity class, rewrites dotted relation paths into joins before it renders SQL, and
    splits relation values off an UPDATE. The generic collection it extends is held as
    `base`. */
module Collections {
  import opened Php
  import opened Errors
  import opened Helpers
  import Meta
  import Structures
  import Query
  import QueryProps
  import Connections
  import Repositories
  import Autojoins
  import opened GenericCollections

  // ---------------------------------------------------------------------
  // getPossibleValues

  /** `getPossibleValues($column)`: the values recorded for the column, else for the column
      under the default alias, else none */
  function PossibleValuesOf(st: Query.State, column: string): seq<(Key, Value)> {
    match Get(st.possibleValues, column)
    case Some(v) => v
    case None =>
      match Get(st.possibleValues, Repositories.DefaultAlias + "." + column)
      case Some(v) => v
      case None => []
  }

  /** a WHERE on one scalar records it as the only possible value of its expression */
  lemma WhereRecords(st: Query.State, e: string, v: Value)
    requires !st.loaded && !v.Null? && !v.Arr? && QueryProps.FreeFrom(st)
    ensures var o := Query.Where(st, e, v);
      o.err.None? && o.st.possibleValues == [(e, [(IntKey(0), v)])]
  {
    QueryProps.ProcessWhereSingle(st, e, v, false, false);
  }

  /** A WHERE on `this.<column>` makes its value a possible value of the bare column, which
      the generic collection does not find. */
  lemma PossibleValuesUnderDefaultAlias(st: Query.State, column: string, v: Value)
    requires !st.loaded && !v.Null? && !v.Arr? && QueryProps.FreeFrom(st)
    ensures var o := Query.Where(st, "this." + column, v);
      && o.err.None?
      && Query.GetPossibleValues(o.st, column) == []
      && PossibleValuesOf(o.st, column) == [(IntKey(0), v)]
  {
    var e := "this." + column;
    WhereRecords(st, e, v);
    var pv := Query.Where(st, e, v).st.possibleValues;
    assert |e| != |column|;
    assert Get(pv, column) == None;
    assert Repositories.DefaultAlias + "." + column == e;
  }

  // ---------------------------------------------------------------------
  // The relation split of update()

  /** the relations update() takes out of its input, with their values, and what is left */
  datatype Split = Split(taken: seq<(string, Meta.RelationMeta, Value)>, rest: seq<(Key, Value)>)

  /** one pass of update()'s loop: a relation whose name is set (present and not null) in
      what is left of the input is moved out of it */
  function Take(s: Split, rel: (string, Meta.RelationMeta)): Split {
    if Connections.IsSet(s.rest, rel.0)
    then Split(s.taken + [(rel.0, rel.1, Get(s.rest, NormKey(rel.0)).value)], Remove(s.rest, NormKey(rel.0)))
    else s
  }

  /** the structure's relations, in order, whose name is set in the input are moved out of it */
  function SplitRelations(rels: seq<(string, Meta.RelationMeta)>, values: seq<(Key, Value)>): Split
    decreases |rels|
  {
    if rels == [] then Split([], values)
    else Take(SplitRelations(rels[..|rels| - 1], values), rels[|rels| - 1])
  }

  function TakenKeys(taken: seq<(string, Meta.RelationMeta, Value)>): set<Key> {
    set t | t in taken :: NormKey(t.0)
  }

  /** One pass removes the relation's key when it takes it, and leaves every other key. */
  lemma TakeGet(s: Split, rel: (string, Meta.RelationMeta), k: Key)
    ensures Get(Take(s, rel).rest, k)
            == if Connections.IsSet(s.rest, rel.0) && k == NormKey(rel.0) then None else Get(s.rest, k)
    ensures k in TakenKeys(Take(s, rel).taken)
            <==> k in TakenKeys(s.taken) || (Connections.IsSet(s.rest, rel.0) && k == NormKey(rel.0))
  {
    TakeRest(s, rel, k);
    if Connections.IsSet(s.rest, rel.0) {
      TakenKeysSnoc(s.taken, (rel.0, rel.1, Get(s.rest, NormKey(rel.0)).value), k);
    }
  }

  lemma TakeRest(s: Split, rel: (string, Meta.RelationMeta), k: Key)
    ensures Get(Take(s, rel).rest, k)
            == if Connections.IsSet(s.rest, rel.0) && k == NormKey(rel.0) then None else Get(s.rest, k)
  {
  }

  lemma TakenKeysSnoc(taken: seq<(string, Meta.RelationMeta, Value)>, t: (string, Meta.RelationMeta, Value), k: Key)
    ensures k in TakenKeys(taken + [t]) <==> k in TakenKeys(taken) || k == NormKey(t.0)
  {
    if k in TakenKeys(taken + [t]) {
      var u :| u in taken + [t] && NormKey(u.0) == k;
      if u != t { assert u in taken; }
    }
    if k in TakenKeys(taken) {
      var u :| u in taken && NormKey(u.0) == k;
      assert u in taken + [t];
    }
    if k == NormKey(t.0) {
      assert t in taken + [t];
    }
  }

  /** The split removes exactly the keys of the relations it takes. */
  lemma {:induction false} SplitRelationsRest(rels: seq<(string, Meta.RelationMeta)>, values: seq<(Key, Value)>, k: Key)
    ensures var s := SplitRelations(rels, values);
      Get(s.rest, k) == if k in TakenKeys(s.taken) then None else Get(values, k)
    decreases |rels|
  {
    if rels != [] {
      var init := rels[..|rels| - 1];
      SplitRelationsRest(init, values, k);
      TakeGet(SplitRelations(init, values), rels[|rels| - 1], k);
    }
  }

  /** Each taken value is the input's non-null value under a relation's name. */
  lemma {:induction false} SplitRelationsTaken(rels: seq<(string, Meta.RelationMeta)>, values: seq<(Key, Value)>)
    ensures var s := SplitRelations(rels, values);
      forall t :: t in s.taken ==> (t.0, t.1) in rels && Get(values, NormKey(t.0)) == Some(t.2) && !t.2.Null?
    decreases |rels|
  {
    if rels != [] {
      var init := rels[..|rels| - 1];
      var last := rels[|rels| - 1];
      assert rels == init + [last];
      SplitRelationsTaken(init, values);
      var s := SplitRelations(init, values);
      if Connections.IsSet(s.rest, last.0) {
        SplitRelationsRest(init, values, NormKey(last.0));
        var t := (last.0, last.1, Get(s.rest, NormKey(last.0)).value);
        assert SplitRelations(rels, values).taken == s.taken + [t];
      }
    }
  }

  /** Every relation set in the input is taken. */
  lemma {:induction false} SplitRelationsComplete(rels: seq<(string, Meta.RelationMeta)>, values: seq<(Key, Value)>, j: nat)
    requires j < |rels| && Connections.IsSet(values, rels[j].0)
    ensures NormKey(rels[j].0) in TakenKeys(SplitRelations(rels, values).taken)
    decreases |rels|
  {
    var init := rels[..|rels| - 1];
    var s := SplitRelations(init, values);
    assert SplitRelations(rels, values) == Take(s, rels[|rels| - 1]);
    var k := NormKey(rels[j].0);
    TakeGet(s, rels[|rels| - 1], k);
    if j < |rels| - 1 {
      assert init[j] == rels[j];
      SplitRelationsComplete(init, values, j);
    } else {
      SplitRelationsRest(init, values, k);
    }
  }

  /** `(string) $column` for every key of an UPDATE's SET list */
  function ColumnPairs(a: seq<(Key, Value)>): (r: seq<(string, Value)>)
    ensures |r| == |a| && forall i :: 0 <= i < |a| ==> r[i] == (KeyString(a[i].0), a[i].1)
  {
    seq(|a|, i requires 0 <= i < |a| => (KeyString(a[i].0), a[i].1))
  }

  /** what update() hands on: the UPDATE and its variables when there are columns left to
      set, and the relation values it took out */
  datatype Updated = Updated(sent: Option<(string, seq<(string, Value)>)>, relations: seq<(string, Meta.RelationMeta, Value)>)

  // ---------------------------------------------------------------------
  // One step of the autojoin parse, unfolded

  /** a registered path is passed over */
  lemma ParseMatchesSkip(st: Query.State, schema: Autojoins.Schema, cls: string, text: string, ms: seq<(nat, string)>, shift: nat)
    requires ms != [] && Autojoins.PathOf(ms[0].1) in Keys(st.aliases)
    ensures var p := Autojoins.ParseMatches(st, schema, cls, text, ms, shift, true);
      var rest := Autojoins.ParseMatches(st, schema, cls, text, ms[1..], shift, true);
      p.o == rest.o && p.text == rest.text
  {
  }

  /** an unregistered path is quoted when it has several segments, and walked */
  lemma ParseMatchesStep(st: Query.State, schema: Autojoins.Schema, cls: string, text: string, ms: seq<(nat, string)>,
                         shift: nat, text': string, shift': nat, o: Query.Out)
    requires ms != [] && Autojoins.PathOf(ms[0].1) !in Keys(st.aliases)
    requires var path := Autojoins.PathOf(ms[0].1);
      && o == Autojoins.Hops(st, schema, cls, "", Autojoins.Explode(path))
      && text' == (if |Autojoins.Explode(path)| > 1
                   then Autojoins.InsertAt(Autojoins.InsertAt(text, ms[0].0 + shift, st.quote), ms[0].0 + shift + |path| + |st.quote|, st.quote)
                   else text)
      && shift' == if |Autojoins.Explode(path)| > 1 then shift + 2 * |st.quote| else shift
    ensures var p := Autojoins.ParseMatches(st, schema, cls, text, ms, shift, true);
      && (o.err.Some? ==> p.o == o && p.text == text')
      && (o.err.None? ==> var rest := Autojoins.ParseMatches(o.st, schema, cls, text', ms[1..], shift', true);
                          p.o == rest.o && p.text == rest.text)
  {
    if o.err.Some? {
      ParseMatchesStops(st, schema, cls, text, ms, shift, text', shift', o);
    } else {
      var path := Autojoins.PathOf(ms[0].1);
      assert Autojoins.Walk(st, schema, cls, Autojoins.Explode(path), true) == o;
      assert |Autojoins.Explode(path)| > 1 ==> Autojoins.QuotePath(text, ms[0].0, |path|, st.quote, shift, true) == text';
      ParseMatchesGoesOn(st, schema, cls, text, ms, shift, text', shift', o);
    }
  }

  lemma ParseMatchesStops(st: Query.State, schema: Autojoins.Schema, cls: string, text: string, ms: seq<(nat, string)>,
                         shift: nat, text': string, shift': nat, o: Query.Out)
    requires ms != [] && Autojoins.PathOf(ms[0].1) !in Keys(st.aliases)
    requires var path := Autojoins.PathOf(ms[0].1);
      && o == Autojoins.Hops(st, schema, cls, "", Autojoins.Explode(path))
      && text' == (if |Autojoins.Explode(path)| > 1
                   then Autojoins.InsertAt(Autojoins.InsertAt(text, ms[0].0 + shift, st.quote), ms[0].0 + shift + |path| + |st.quote|, st.quote)
                   else text)
      && shift' == if |Autojoins.Explode(path)| > 1 then shift + 2 * |st.quote| else shift
    requires o.err.Some?
    ensures var p := Autojoins.ParseMatches(st, schema, cls, text, ms, shift, true);
      p.o == o && p.text == text'
  {
    var path := Autojoins.PathOf(ms[0].1);
    var segs := Autojoins.Explode(path);
    var quoted := |segs| > 1;
    assert Autojoins.Walk(st, schema, cls, segs, true) == o;
    assert text' == if quoted then Autojoins.QuotePath(text, ms[0].0, |path|, st.quote, shift, true) else text;
  }

  lemma ParseMatchesGoesOn(st: Query.State, schema: Autojoins.Schema, cls: string, text: string, ms: seq<(nat, string)>,
                           shift: nat, text': string, shift': nat, o: Query.Out)
    requires ms != [] && Autojoins.PathOf(ms[0].1) !in Keys(st.aliases)
    requires var path := Autojoins.PathOf(ms[0].1); var quoted := |Autojoins.Explode(path)| > 1;
      && o == Autojoins.Walk(st, schema, cls, Autojoins.Explode(path), true)
      && text' == (if quoted then Autojoins.QuotePath(text, ms[0].0, |path|, st.quote, shift, true) else text)
      && shift' == if quoted then shift + 2 * |st.quote| else shift
    requires o.err.None?
    ensures var p := Autojoins.ParseMatches(st, schema, cls, text, ms, shift, true);
      var rest := Autojoins.ParseMatches(o.st, schema, cls, text', ms[1..], shift', true);
      p.o == rest.o && p.text == rest.text
  {
  }

  // ---------------------------------------------------------------------
  // The collection

  class Collection {
    const base: GenericCollection
    const schema: Autojoins.Schema
    const structure: Structures.Structure
    var entityClass: string
    var skipSelectLength: nat
    var smartJoin: bool

    /** the field assignments of `__construct`: the index is the PK under the default alias,
        the entries of the default select are never autojoined */
    constructor (objectId: nat, quote: string, schema: Autojoins.Schema, structure: Structures.Structure,
                 defaultSelect: seq<(Key, Query.Src)>, fallbackSelect: seq<(Key, Query.Src)>)
      ensures fresh(base) && this.schema == schema && this.structure == structure
      ensures entityClass == structure.entityClass && skipSelectLength == |defaultSelect| && smartJoin
      ensures base.Abs() == Query.Pristine(objectId, quote, Some(Repositories.DefaultFrom(structure.table)), fallbackSelect,
                                           Some(Repositories.DefaultAlias + "." + structure.pk.name))
    {
      base := new GenericCollection(objectId, quote, Some(Repositories.DefaultFrom(structure.table)), fallbackSelect,
                                    Some(Repositories.DefaultAlias + "." + structure.pk.name));
      this.schema := schema;
      this.structure := structure;
      entityClass := structure.entityClass;
      skipSelectLength := |defaultSelect|;
      smartJoin := true;
    }

    /** `__construct` as a whole: the field assignments, then init() */
    static method Create(objectId: nat, quote: string, schema: Autojoins.Schema, structure: Structures.Structure,
                         defaultSelect: seq<(Key, Query.Src)>, fallbackSelect: seq<(Key, Query.Src)>)
      returns (c: Collection, err: Option<Error>)
      ensures fresh(c) && fresh(c.base) && c.schema == schema && c.structure == structure
      ensures c.entityClass == structure.entityClass && c.skipSelectLength == |defaultSelect| && c.smartJoin
      ensures Query.Out(c.base.Abs(), err) ==
              Query.Construct(objectId, quote, Some(Repositories.DefaultFrom(structure.table)), fallbackSelect,
                              Some(Repositories.DefaultAlias + "." + structure.pk.name))
    {
      c := new Collection(objectId, quote, schema, structure, defaultSelect, fallbackSelect);
      err := c.base.Init();
    }

    /** `setSmartJoin($enable, $entityClass)`: the class is taken only when it is a truthy
        name of an Entity subclass (`isEntity`) */
    method SetSmartJoin(enable: bool, cls: Option<string>, isEntity: bool)
      modifies this
      ensures smartJoin == enable && skipSelectLength == old(skipSelectLength)
      ensures entityClass == if Connections.TruthyString(cls) && isEntity then cls.value else old(entityClass)
    {
      smartJoin := enable;
      if Connections.TruthyString(cls) && isEntity {
        entityClass := cls.value;
      }
    }

    /** `setSelect(...)`: a new select list is autojoined from its first entry on */
    method SetSelect(columns: seq<(Key, Query.Src)>, values: seq<(string, Value)>, keepIndex: bool)
      returns (err: Option<Error>)
      modifies this, base
      ensures skipSelectLength == 0 && smartJoin == old(smartJoin) && entityClass == old(entityClass)
      ensures Query.Out(base.Abs(), err) == Query.SetSelect(old(base.Abs()), columns, values, keepIndex)
    {
      skipSelectLength := 0;
      err := base.SetSelect(columns, values, keepIndex);
    }

    function PossibleValues(column: string): (r: seq<(Key, Value)>)
      reads base
      ensures r == PossibleValuesOf(base.Abs(), column)
    {
      match Get(base.possibleValues, column)
      case Some(v) => v
      case None =>
        match Get(base.possibleValues, Repositories.DefaultAlias + "." + column)
        case Some(v) => v
        case None => []
    }

    /** one hop of parseExpression: the join to the relation's target (through the junction
        table first for a many-to-many relation) */
    method JoinHop(rel: Meta.RelationMeta, realAlias: string) returns (err: Option<Error>)
      modifies base
      ensures Query.Out(base.Abs(), err) == Autojoins.JoinHop(old(base.Abs()), schema, rel, realAlias)
    {
      var aliasQ := base.quote + realAlias + base.quote;
      var sourceTable := Autojoins.TableOf(schema, rel.source);
      var sourceAlias := match Get(base.tableAliases, sourceTable) case Some(a) => a case None => sourceTable;
      var sourceQ := base.quote + sourceAlias + base.quote;
      var target := [(StrKey(aliasQ), Query.Text(Autojoins.TableOf(schema, rel.target)))];
      match rel.kind {
        case ManyToMany(via, sourceViaKey, targetViaKey) =>
          err := base.Join([(IntKey(0), Query.Text(via))], via + "." + sourceViaKey + "=" + sourceQ + "." + rel.sourceKey,
                           [], Some(Query.DefaultJoin));
          if err.None? {
            err := base.Join(target, via + "." + targetViaKey + "=" + aliasQ + "." + rel.targetKey, [], Some(Query.DefaultJoin));
          }
        case _ =>
          err := base.Join(target, sourceQ + "." + rel.sourceKey + "=" + aliasQ + "." + rel.targetKey, [], Some(Query.DefaultJoin));
      }
    }

    /** the walk along one dotted path: each segment that names a relation of the current
        class is joined unless its alias is registered, and the walk moves on to the target */
    method Hops(segs: seq<string>) returns (err: Option<Error>)
      modifies base
      ensures Query.Out(base.Abs(), err) == Autojoins.Hops(old(base.Abs()), schema, entityClass, "", segs)
    {
      var cls, prefix := entityClass, "";
      var i := 0;
      err := None;
      while i < |segs|
        invariant i <= |segs| && err.None?
        invariant Autojoins.Hops(base.Abs(), schema, cls, prefix, segs[i..]) ==
                  Autojoins.Hops(old(base.Abs()), schema, entityClass, "", segs)
      {
        assert segs[i..][0] == segs[i] && segs[i..][1..] == segs[i + 1..];
        var rel := Autojoins.RelationOf(schema, cls, segs[i]);
        if rel.Some? {
          var realAlias := prefix + segs[i];
          if realAlias !in Keys(base.aliases) {
            err := JoinHop(rel.value, realAlias);
            if err.Some? {
              return;
            }
          }
          cls, prefix := rel.value.target, realAlias + ".";
        }
        i := i + 1;
      }
      assert segs[i..] == [];
    }

    /** `parseExpression(&$expression)`: every dotted path of the fragment not registered as
        an alias is walked and, when it has several segments, quoted in the returned text */
    method ParseExpression(e: string) returns (text: string, err: Option<Error>)
      modifies base
      ensures var p := Autojoins.ParseExpression(old(base.Abs()), schema, entityClass, e);
        Query.Out(base.Abs(), err) == p.o && text == p.text
    {
      var ms := Autojoins.Matches(e, 0);
      ghost var whole := Autojoins.ParseExpression(base.Abs(), schema, entityClass, e);
      text, err := e, None;
      var shift: nat := 0;
      var i := 0;
      while i < |ms|
        invariant i <= |ms| && err.None?
        invariant var rest := Autojoins.ParseMatches(base.Abs(), schema, entityClass, text, ms[i..], shift, true);
          rest.o == whole.o && rest.text == whole.text
      {
        assert ms[i..][0] == ms[i] && ms[i..][1..] == ms[i + 1..];
        if Autojoins.PathOf(ms[i].1) !in Keys(base.aliases) {
          text, shift, err := ParseOne(ms[i..], text, shift);
          if err.Some? {
            return;
          }
        } else {
          ParseMatchesSkip(base.Abs(), schema, entityClass, text, ms[i..], shift);
        }
        i := i + 1;
      }
      assert ms[i..] == [];
    }

    /** one unregistered path of parseExpression: quoted when it has several segments, and
        walked */
    method ParseOne(ms: seq<(nat, string)>, text0: string, shift0: nat) returns (text: string, shift: nat, err: Option<Error>)
      requires ms != [] && Autojoins.PathOf(ms[0].1) !in Keys(base.aliases)
      modifies base
      ensures var p := Autojoins.ParseMatches(old(base.Abs()), schema, entityClass, text0, ms, shift0, true);
        && (err.Some? ==> Query.Out(base.Abs(), err) == p.o && text == p.text)
        && (err.None? ==> var rest := Autojoins.ParseMatches(base.Abs(), schema, entityClass, text, ms[1..], shift, true);
                          rest.o == p.o && rest.text == p.text)
    {
      ghost var st := base.Abs();
      var offset, path := ms[0].0, Autojoins.PathOf(ms[0].1);
      var segs := Autojoins.Explode(path);
      text, shift := text0, shift0;
      if |segs| > 1 {
        var q := base.quote;
        text := Autojoins.InsertAt(text, offset + shift, q);
        text := Autojoins.InsertAt(text, offset + shift + |path| + |q|, q);
        shift := shift + 2 * |q|;
      }
      err := Hops(segs);
      ParseMatchesStep(st, schema, entityClass, text0, ms, shift0, text, shift, Query.Out(base.Abs(), err));
    }

    /** the SELECT loop of autojoin(): the entries past the default ones that are text are
        parsed and replaced by their rewrite */
    method SelectPhase() returns (err: Option<Error>)
      modifies base
      ensures Query.Out(base.Abs(), err) == Autojoins.SelectPhase(old(base.Abs()), schema, entityClass, skipSelectLength, 0)
    {
      err := None;
      var i := 0;
      while i < |base.select|
        invariant err.None?
        invariant Autojoins.SelectPhase(base.Abs(), schema, entityClass, skipSelectLength, i) ==
                  Autojoins.SelectPhase(old(base.Abs()), schema, entityClass, skipSelectLength, 0)
        decreases |base.select| - i
      {
        var select := base.select;
        if i >= skipSelectLength && select[i].1.Text? {
          var text;
          text, err := ParseExpression(select[i].1.sql);
          base.select := select[i := (select[i].0, Query.Text(text))];
          if err.Some? {
            return;
          }
        }
        i := i + 1;
      }
    }

    /** the ORDER BY loop of autojoin(): the string keys are parsed, and not rewritten */
    method OrderPhase() returns (err: Option<Error>)
      modifies base
      ensures Query.Out(base.Abs(), err) == Autojoins.OrderPhase(old(base.Abs()), schema, entityClass, Keys(old(base.orderBy)), 0)
    {
      err := None;
      var keys := Keys(base.orderBy);
      var i := 0;
      while i < |keys|
        invariant err.None?
        invariant Autojoins.OrderPhase(base.Abs(), schema, entityClass, keys, i) ==
                  Autojoins.OrderPhase(old(base.Abs()), schema, entityClass, keys, 0)
        decreases |keys| - i
      {
        if keys[i].StrKey? {
          var text;
          text, err := ParseExpression(keys[i].s);
          if err.Some? {
            return;
          }
        }
        i := i + 1;
      }
    }

    /** the WHERE loop of autojoin(): every condition is parsed and replaced by its rewrite */
    method WherePhase() returns (err: Option<Error>)
      modifies base
      ensures Query.Out(base.Abs(), err) == Autojoins.WherePhase(old(base.Abs()), schema, entityClass, 0)
    {
      err := None;
      var i := 0;
      while i < |base.where|
        invariant err.None?
        invariant Autojoins.WherePhase(base.Abs(), schema, entityClass, i) ==
                  Autojoins.WherePhase(old(base.Abs()), schema, entityClass, 0)
        decreases |base.where| - i
      {
        var where := base.where;
        var text;
        text, err := ParseExpression(where[i]);
        base.where := where[i := text];
        if err.Some? {
          return;
        }
        i := i + 1;
      }
    }

    /** the GROUP BY loop of autojoin(): the text entries are parsed and replaced by their
        rewrite */
    method GroupPhase() returns (err: Option<Error>)
      modifies base
      ensures Query.Out(base.Abs(), err) == Autojoins.GroupPhase(old(base.Abs()), schema, entityClass, 0)
    {
      err := None;
      var i := 0;
      while i < |base.groupBy|
        invariant err.None?
        invariant Autojoins.GroupPhase(base.Abs(), schema, entityClass, i) ==
                  Autojoins.GroupPhase(old(base.Abs()), schema, entityClass, 0)
        decreases |base.groupBy| - i
      {
        var groupBy := base.groupBy;
        if groupBy[i].1.Text? {
          var text;
          text, err := ParseExpression(groupBy[i].1.sql);
          base.groupBy := groupBy[i := (groupBy[i].0, Query.Text(text))];
          if err.Some? {
            return;
          }
        }
        i := i + 1;
      }
    }

    /** `autojoin()`: unless smart joins are off, the SELECT entries past the default ones,
        the ORDER BY keys, the WHERE conditions and the GROUP BY entries are parsed in turn;
        the first failure stops it */
    method Autojoin() returns (err: Option<Error>)
      modifies base
      ensures Query.Out(base.Abs(), err) ==
              Autojoins.Autojoin(old(base.Abs()), schema, entityClass, skipSelectLength, smartJoin)
    {
      err := None;
      if !smartJoin {
        return;
      }
      err := SelectPhase();
      if err.Some? {
        return;
      }
      err := OrderPhase();
      if err.Some? {
        return;
      }
      err := WherePhase();
      if err.Some? {
        return;
      }
      err := GroupPhase();
    }

    /** `getSql()`: autojoin, then the generic SELECT */
    method GetSql() returns (sql: Result<string>)
      modifies base
      ensures var a := Autojoins.Autojoin(old(base.Abs()), schema, entityClass, skipSelectLength, smartJoin);
        && (a.err.Some? ==> base.Abs() == a.st && sql == Err(a.err.value))
        && (a.err.None? ==> var c := Query.GetSql(a.st); base.Abs() == c.st && sql == c.sql)
    {
      var err := Autojoin();
      if err.Some? {
        return Err(err.value);
      }
      sql := base.GetSql();
    }

    /** `getSqlDelete()`: autojoin, then the generic DELETE */
    method GetSqlDelete() returns (sql: Result<string>)
      modifies base
      ensures var a := Autojoins.Autojoin(old(base.Abs()), schema, entityClass, skipSelectLength, smartJoin);
        && base.Abs() == a.st
        && sql == if a.err.Some? then Err(a.err.value) else Query.GetSqlDelete(a.st)
    {
      var err := Autojoin();
      if err.Some? {
        return Err(err.value);
      }
      sql := base.GetSqlDelete();
    }

    /** `getSqlUpdate($updates, $ignore, $alias)`: autojoin, then the generic UPDATE */
    method GetSqlUpdate(updates: seq<(string, Value)>, ignore: bool, alias: Option<string>, mutations: seq<(string, string)>)
      returns (r: Result<Query.UpdateSql>)
      modifies base
      ensures var a := Autojoins.Autojoin(old(base.Abs()), schema, entityClass, skipSelectLength, smartJoin);
        && base.Abs() == a.st
        && r == if a.err.Some? then Err(a.err.value) else Query.GetSqlUpdate(a.st, updates, ignore, alias, mutations)
    {
      var err := Autojoin();
      if err.Some? {
        return Err(err.value);
      }
      r := base.GetSqlUpdate(updates, ignore, alias, mutations);
    }

    /** the loop of update() over the structure's relations */
    method SplitRelationsLoop(values: seq<(Key, Value)>) returns (taken: seq<(string, Meta.RelationMeta, Value)>, rest: seq<(Key, Value)>)
      ensures Split(taken, rest) == SplitRelations(structure.relations, values)
    {
      var rels := structure.relations;
      taken, rest := [], values;
      var i := 0;
      while i < |rels|
        invariant i <= |rels|
        invariant Split(taken, rest) == SplitRelations(rels[..i], values)
      {
        assert rels[..i + 1][..i] == rels[..i];
        var name := rels[i].0;
        if Connections.IsSet(rest, name) {
          taken := taken + [(name, rels[i].1, Get(rest, NormKey(name)).value)];
          rest := Remove(rest, NormKey(name));
        }
        i := i + 1;
      }
      assert rels[..i] == rels;
    }

    /** `update($values, $ignore, $alias)` on an array: an empty input is refused; the set
        relation values are taken out; the other properties are renamed to their columns and,
        when any are left, sent as an UPDATE of the autojoined collection together with the
        FROM, JOIN, WHERE and ORDER BY variables */
    method Update(values: seq<(Key, Value)>, ignore: bool, alias: Option<string>, mutations: seq<(string, string)>)
      returns (r: Result<Updated>)
      modifies base
      ensures values == [] ==> r == Err(InvalidArgument(NoValueToUpdate)) && base.Abs() == old(base.Abs())
      ensures values != [] ==>
        var split := SplitRelations(structure.relations, values);
        var columns := Repositories.PropertiesToColumns(split.rest, structure.columns, false);
        && (columns == [] ==> r == Ok(Updated(None, split.taken)) && base.Abs() == old(base.Abs()))
        && (columns != [] ==>
              var a := Autojoins.Autojoin(old(base.Abs()), schema, entityClass, skipSelectLength, smartJoin);
              var q := Query.UpdateQuery(a.st, ColumnPairs(columns), ignore, alias, mutations);
              && base.Abs() == a.st
              && r == if a.err.Some? then Err(a.err.value) else if q.Err? then Err(q.error) else Ok(Updated(Some(q.value), split.taken)))
    {
      if values == [] {
        return Err(InvalidArgument(NoValueToUpdate));
      }
      var taken, rest := SplitRelationsLoop(values);
      var columns := Repositories.PropertiesToColumns(rest, structure.columns, false);
      if columns == [] {
        return Ok(Updated(None, taken));
      }
      var err := Autojoin();
      if err.Some? {
        return Err(err.value);
      }
      var q := Query.UpdateQuery(base.Abs(), ColumnPairs(columns), ignore, alias, mutations);
      r := if q.Err? then Err(q.error) else Ok(Updated(Some(q.value), taken));
    }
  }
}
