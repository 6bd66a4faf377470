/**
 * `searchAndPaginateResults`: join every hop of every joined path once, then filter,
 * sort and page, run the query, and wrap the rows with the paging metadata.
 */
module SearchService {
  import opened Wrappers
  import opened Exceptions
  import opened JsValues
  import opened QueryBuilders
  import opened Emissions
  import opened FilterWalk
  import opened Sorting
  import opened Pagination
  import Text

  // ---------------------------------------------------------------- joins

  /** One `leftJoinAndSelect` the join walk may issue: the path joined and its alias. */
  datatype Hop = Hop(path: string, alias: string)

  /** The alias of a path prefix: the entity name followed by `_segment` for each segment. */
  function PrefixAlias(entityName: string, parts: seq<string>): string
    decreases |parts|
  {
    if |parts| == 0 then entityName else PrefixAlias(entityName, parts[..|parts| - 1]) + "_" + parts[|parts| - 1]
  }

  /** The hops of one joined path, segment by segment. */
  function FieldHops(entityName: string, parts: seq<string>): (hs: seq<Hop>)
    ensures |hs| == |parts|
  {
    seq(|parts|, i requires 0 <= i < |parts| =>
      Hop(PrefixAlias(entityName, parts[..i]) + "." + parts[i], PrefixAlias(entityName, parts[..i + 1])))
  }

  /** The hops of all joined paths, in order. */
  function AllHops(entityName: string, joinedFields: seq<string>): seq<Hop>
    decreases |joinedFields|
  {
    if |joinedFields| == 0 then []
    else AllHops(entityName, joinedFields[..|joinedFields| - 1])
         + FieldHops(entityName, Text.Split(joinedFields[|joinedFields| - 1], '.'))
  }

  /** The aliases joined so far and the joins issued, after a prefix of the hops. */
  datatype JoinState = JoinState(seen: set<string>, clauses: seq<Clause>)

  /** A hop is joined only when its alias has not been seen. */
  function JoinWalk(hops: seq<Hop>): JoinState
    decreases |hops|
  {
    if |hops| == 0 then JoinState({}, [])
    else
      var s := JoinWalk(hops[..|hops| - 1]);
      var h := hops[|hops| - 1];
      if h.alias in s.seen then s else JoinState(s.seen + {h.alias}, s.clauses + [LeftJoinAndSelect(h.path, h.alias)])
  }

  function JoinClauses(entityName: string, joinedFields: seq<string>): seq<Clause> {
    JoinWalk(AllHops(entityName, joinedFields)).clauses
  }

  lemma PrefixAliasSnoc(entityName: string, parts: seq<string>, i: nat)
    requires i < |parts|
    ensures PrefixAlias(entityName, parts[..i + 1]) == PrefixAlias(entityName, parts[..i]) + "_" + parts[i]
  {
    assert parts[..i + 1][..i] == parts[..i];
  }

  lemma JoinWalkSnoc(done: seq<Hop>, hs: seq<Hop>, i: nat)
    requires i < |hs|
    ensures JoinWalk(done + hs[..i + 1]) ==
      var s := JoinWalk(done + hs[..i]);
      if hs[i].alias in s.seen then s else JoinState(s.seen + {hs[i].alias}, s.clauses + [LeftJoinAndSelect(hs[i].path, hs[i].alias)])
  {
    var all := done + hs[..i + 1];
    assert all[..|all| - 1] == done + hs[..i];
    assert all[|all| - 1] == hs[i];
  }

  lemma AllHopsSnoc(entityName: string, joinedFields: seq<string>, f: nat)
    requires f < |joinedFields|
    ensures AllHops(entityName, joinedFields[..f + 1])
         == AllHops(entityName, joinedFields[..f]) + FieldHops(entityName, Text.Split(joinedFields[f], '.'))
  {
    assert joinedFields[..f + 1][..f] == joinedFields[..f];
  }

  /** The inner join loop: the hops of one joined path, skipping aliases already joined. */
  method JoinPath(qb: QueryBuilder, entityName: string, parts: seq<string>, ghost done: seq<Hop>,
                  ghost base: seq<Clause>, aliases: set<string>)
      returns (joinedAliases: set<string>)
    requires aliases == JoinWalk(done).seen && qb.log == base + JoinWalk(done).clauses
    modifies qb
    ensures joinedAliases == JoinWalk(done + FieldHops(entityName, parts)).seen
    ensures qb.log == base + JoinWalk(done + FieldHops(entityName, parts)).clauses
  {
    ghost var hs := FieldHops(entityName, parts);
    assert done + hs[..0] == done;
    joinedAliases := aliases;
    var alias := entityName;
    var i := 0;
    while i < |parts|
      invariant 0 <= i <= |parts|
      invariant alias == PrefixAlias(entityName, parts[..i])
      invariant joinedAliases == JoinWalk(done + hs[..i]).seen
      invariant qb.log == base + JoinWalk(done + hs[..i]).clauses
    {
      var newAlias := alias + "_" + parts[i];
      PrefixAliasSnoc(entityName, parts, i);
      assert hs[i] == Hop(alias + "." + parts[i], newAlias);
      JoinWalkSnoc(done, hs, i);
      if newAlias !in joinedAliases {
        qb.LeftJoinAndSelect(alias + "." + parts[i], newAlias);
        joinedAliases := joinedAliases + {newAlias};
      }
      alias := newAlias;
      i := i + 1;
    }
    assert hs[..|parts|] == hs;
  }

  /** The join loop: every hop of every joined path, skipping aliases already joined. */
  method JoinTables(qb: QueryBuilder, entityName: string, joinedFields: seq<string>)
    modifies qb
    ensures qb.log == old(qb.log) + JoinClauses(entityName, joinedFields)
  {
    ghost var start := qb.log;
    var joinedAliases: set<string> := {};
    var f := 0;
    while f < |joinedFields|
      invariant 0 <= f <= |joinedFields|
      invariant joinedAliases == JoinWalk(AllHops(entityName, joinedFields[..f])).seen
      invariant qb.log == start + JoinWalk(AllHops(entityName, joinedFields[..f])).clauses
    {
      var parts := Text.Split(joinedFields[f], '.');
      joinedAliases := JoinPath(qb, entityName, parts, AllHops(entityName, joinedFields[..f]), start, joinedAliases);
      AllHopsSnoc(entityName, joinedFields, f);
      f := f + 1;
    }
    assert joinedFields[..f] == joinedFields;
  }

  /**
   * Each hop of a joined path starts from the alias of the hop before it, the entity
   * name for the first, and is aliased `parent_segment`.
   */
  lemma HopsChain(entityName: string, parts: seq<string>)
    requires |parts| > 0
    ensures var hs := FieldHops(entityName, parts);
      && hs[0] == Hop(entityName + "." + parts[0], entityName + "_" + parts[0])
      && forall i :: 0 < i < |parts| ==>
           hs[i] == Hop(hs[i - 1].alias + "." + parts[i], hs[i - 1].alias + "_" + parts[i])
  {
    var hs := FieldHops(entityName, parts);
    PrefixAliasSnoc(entityName, parts, 0);
    assert parts[..0] == [];
    forall i | 0 < i < |parts|
      ensures hs[i] == Hop(hs[i - 1].alias + "." + parts[i], hs[i - 1].alias + "_" + parts[i])
    {
      PrefixAliasSnoc(entityName, parts, i);
    }
  }

  /** The aliases seen are exactly the aliases of the hops. */
  lemma {:induction false} SeenIsHopAliases(hops: seq<Hop>)
    ensures JoinWalk(hops).seen == (set h | h in hops :: h.alias)
    decreases |hops|
  {
    if |hops| > 0 {
      var init := hops[..|hops| - 1];
      SeenIsHopAliases(init);
      assert hops == init + [hops[|hops| - 1]];
      assert (set x | x in hops :: x.alias) == (set x | x in init :: x.alias) + {hops[|hops| - 1].alias};
    }
  }

  /** Each join issued is one of the hops, under an alias that has been seen. */
  predicate IssuedFromHops(s: JoinState, hops: seq<Hop>) {
    forall i :: 0 <= i < |s.clauses| ==>
      s.clauses[i].LeftJoinAndSelect? && s.clauses[i].alias in s.seen && Hop(s.clauses[i].path, s.clauses[i].alias) in hops
  }

  /** Joins, each under its own alias. */
  predicate AliasesDistinct(cs: seq<Clause>) {
    forall i, j :: 0 <= i < j < |cs| ==> cs[i].LeftJoinAndSelect? && cs[j].LeftJoinAndSelect? && cs[i].alias != cs[j].alias
  }

  /** Every alias seen has been joined. */
  predicate SeenJoined(s: JoinState) {
    forall a :: a in s.seen ==> exists i :: 0 <= i < |s.clauses| && s.clauses[i].LeftJoinAndSelect? && s.clauses[i].alias == a
  }

  lemma {:induction false} JoinsAreHops(hops: seq<Hop>)
    ensures IssuedFromHops(JoinWalk(hops), hops)
    decreases |hops|
  {
    if |hops| > 0 {
      var init := hops[..|hops| - 1];
      var h := hops[|hops| - 1];
      JoinsAreHops(init);
      assert hops == init + [h];
      var s := JoinWalk(init);
      forall x | x in init ensures x in hops { }
      if h.alias !in s.seen {
        var cs := s.clauses + [LeftJoinAndSelect(h.path, h.alias)];
        forall i | 0 <= i < |s.clauses| ensures cs[i] == s.clauses[i] { }
        assert cs[|cs| - 1] == LeftJoinAndSelect(h.path, h.alias);
      }
    }
  }

  lemma {:induction false} JoinAliasesDistinct(hops: seq<Hop>)
    ensures AliasesDistinct(JoinWalk(hops).clauses)
    decreases |hops|
  {
    if |hops| > 0 {
      var init := hops[..|hops| - 1];
      var h := hops[|hops| - 1];
      JoinAliasesDistinct(init);
      JoinsAreHops(init);
      var s := JoinWalk(init);
      if h.alias !in s.seen {
        var cs := s.clauses + [LeftJoinAndSelect(h.path, h.alias)];
        forall i, j | 0 <= i < j < |cs|
          ensures cs[i].LeftJoinAndSelect? && cs[j].LeftJoinAndSelect? && cs[i].alias != cs[j].alias
        {
          assert cs[i] == s.clauses[i];
          if j < |s.clauses| {
            assert cs[j] == s.clauses[j];
          } else {
            assert cs[i].alias in s.seen;
          }
        }
      }
    }
  }

  lemma {:induction false} SeenAreJoined(hops: seq<Hop>)
    ensures SeenJoined(JoinWalk(hops))
    decreases |hops|
  {
    if |hops| > 0 {
      var init := hops[..|hops| - 1];
      var h := hops[|hops| - 1];
      SeenAreJoined(init);
      var s := JoinWalk(init);
      if h.alias !in s.seen {
        var cs := s.clauses + [LeftJoinAndSelect(h.path, h.alias)];
        forall a | a in s.seen + {h.alias} ensures exists i :: 0 <= i < |cs| && cs[i].LeftJoinAndSelect? && cs[i].alias == a {
          if a == h.alias {
            assert cs[|cs| - 1].alias == a;
          } else {
            var i :| 0 <= i < |s.clauses| && s.clauses[i].LeftJoinAndSelect? && s.clauses[i].alias == a;
            assert cs[i] == s.clauses[i];
          }
        }
      }
    }
  }

  /**
   * No alias is joined twice; every hop's alias ends up joined; and each join issued is
   * one of the hops. The seen set is exactly the set of hop aliases.
   */
  lemma JoinsOncePerAlias(hops: seq<Hop>)
    ensures JoinWalk(hops).seen == (set h | h in hops :: h.alias)
    ensures IssuedFromHops(JoinWalk(hops), hops)
    ensures AliasesDistinct(JoinWalk(hops).clauses)
    ensures SeenJoined(JoinWalk(hops))
  {
    SeenIsHopAliases(hops);
    JoinsAreHops(hops);
    JoinAliasesDistinct(hops);
    SeenAreJoined(hops);
  }

  // ---------------------------------------------------------------- the search

  datatype Meta = Meta(total: nat, page: int, limit: int, totalPages: int, sortBy: Option<string>, sortOrder: string)

  datatype SearchResult = SearchResult(contents: seq<JsValue>, meta: Meta)

  /** `Math.ceil(total / limit)`. */
  function TotalPages(total: nat, limit: int): int
    requires limit >= 1
  {
    (total + limit - 1) / limit
  }

  /** The page count is the least number of pages of `limit` rows that hold all rows. */
  lemma TotalPagesIsCeiling(total: nat, limit: int)
    requires limit >= 1
    ensures var n := TotalPages(total, limit);
      && n >= 0 && n * limit >= total && (n - 1) * limit < total
      && (n == 0 <==> total == 0)
  {
    var n := TotalPages(total, limit);
    var r := (total + limit - 1) % limit;
    assert total + limit - 1 == n * limit + r && 0 <= r < limit;
    assert n * limit >= total;
    assert (n - 1) * limit == n * limit - limit;
  }

  /** The sort step as an emission: its clauses, or its error with nothing added. */
  function SortEmission(entityName: string, sort: SortDto, allowedFields: seq<string>, joinedFields: seq<string>): Emission {
    match SortClauses(entityName, sort, allowedFields, joinedFields)
    case Ok(cs) => Emission(cs, None)
    case Err(e) => Throws(e)
  }

  /** What follows the sort: the page window, then the query itself. */
  function PageAndQuery(pagination: PaginationDto): seq<Clause> {
    [Skip(Offset(pagination.page, pagination.limit)), Take(pagination.limit), GetManyAndCount]
  }

  /** The steps of a search in their fixed order; the first that throws ends it. */
  function SearchEmission(entityName: string, filter: JsValue, pagination: PaginationDto, sort: SortDto,
                          allowedFields: seq<string>, joinedFields: seq<string>, stringify: JsValue -> string): Emission
  {
    var ctx := FilterContext(entityName, allowedFields, joinedFields, stringify);
    Then(Then(Emission(JoinClauses(entityName, joinedFields), None), FilterEmission(ctx, filter)),
         Then(SortEmission(entityName, sort, allowedFields, joinedFields), Emission(PageAndQuery(pagination), None)))
  }

  /** The three ways the chained steps of a search can end. */
  lemma ThenChain(joins: seq<Clause>, filtered: Emission, sorted: Emission, paged: Emission)
    requires paged.error.None? && (sorted.error.Some? ==> sorted.clauses == [])
    ensures var e := Then(Then(Emission(joins, None), filtered), Then(sorted, paged));
      && (filtered.error.Some? ==> e == Emission(joins + filtered.clauses, filtered.error))
      && (filtered.error.None? && sorted.error.Some? ==> e == Emission(joins + filtered.clauses, sorted.error))
      && (filtered.error.None? && sorted.error.None? ==>
            e == Emission(joins + filtered.clauses + sorted.clauses + paged.clauses, None))
  {
  }

  /** The log after the joins, the filter and, unless the filter threw, the rest. */
  lemma ChainLog(start: seq<Clause>, joins: seq<Clause>, filtered: Emission, rest: Emission, log: seq<Clause>, err: Option<Error>)
    requires filtered.error.Some? ==> log == start + joins + filtered.clauses && err == filtered.error
    requires filtered.error.None? ==> log == start + joins + filtered.clauses + rest.clauses && err == rest.error
    ensures log == start + Then(Then(Emission(joins, None), filtered), rest).clauses
    ensures err == Then(Then(Emission(joins, None), filtered), rest).error
  {
    AppendAssoc(start, joins, filtered.clauses);
    if filtered.error.None? {
      AppendAssoc(start, joins + filtered.clauses, rest.clauses);
    }
  }

  /** Sort, page and query: the second half of a search. */
  method SortPageAndQuery(qb: QueryBuilder, entityName: string, pagination: PaginationDto, sort: SortDto,
                          allowedFields: seq<string>, joinedFields: seq<string>)
      returns (err: Option<Error>)
    modifies qb
    ensures qb.log == old(qb.log) + Then(SortEmission(entityName, sort, allowedFields, joinedFields), Emission(PageAndQuery(pagination), None)).clauses
    ensures err == Then(SortEmission(entityName, sort, allowedFields, joinedFields), Emission(PageAndQuery(pagination), None)).error
  {
    ghost var start := qb.log;
    err := ApplySort(qb, entityName, sort, allowedFields, joinedFields);
    if err.Some? {
      assert qb.log == start + [];
      return;
    }
    ghost var sorted := qb.log;
    ApplyPagination(qb, pagination);
    qb.GetManyAndCount();
    assert qb.log == sorted + PageAndQuery(pagination);
    AppendAssoc(start, SortClauses(entityName, sort, allowedFields, joinedFields).value, PageAndQuery(pagination));
  }

  /** Every step of a search, stopping at the first that throws. */
  method SearchSteps(qb: QueryBuilder, entityName: string, filter: JsValue, pagination: PaginationDto,
                     sort: SortDto, allowedFields: seq<string>, joinedFields: seq<string>, stringify: JsValue -> string)
      returns (err: Option<Error>)
    modifies qb
    ensures qb.log == old(qb.log) + SearchEmission(entityName, filter, pagination, sort, allowedFields, joinedFields, stringify).clauses
    ensures err == SearchEmission(entityName, filter, pagination, sort, allowedFields, joinedFields, stringify).error
  {
    ghost var start := qb.log;
    var ctx := FilterContext(entityName, allowedFields, joinedFields, stringify);
    JoinTables(qb, entityName, joinedFields);
    err := ApplyFilter(qb, ctx, filter);
    if err.None? {
      err := SortPageAndQuery(qb, entityName, pagination, sort, allowedFields, joinedFields);
    }
    ChainLog(start, JoinClauses(entityName, joinedFields), FilterEmission(ctx, filter),
             Then(SortEmission(entityName, sort, allowedFields, joinedFields), Emission(PageAndQuery(pagination), None)),
             qb.log, err);
  }

  /**
   * The search. `contents` and `total` stand for what the database answers to
   * `getManyAndCount`; they are used only when every step before it succeeded.
   */
  method SearchAndPaginateResults(qb: QueryBuilder, entityName: string, filter: JsValue, pagination: PaginationDto,
                                  sort: SortDto, allowedFields: seq<string>, joinedFields: seq<string>,
                                  stringify: JsValue -> string, contents: seq<JsValue>, total: nat)
      returns (r: Result<SearchResult, Error>)
    requires ValidPagination(pagination)
    modifies qb
    ensures qb.log == old(qb.log) + SearchEmission(entityName, filter, pagination, sort, allowedFields, joinedFields, stringify).clauses
    ensures r.Err? <==> SearchEmission(entityName, filter, pagination, sort, allowedFields, joinedFields, stringify).error.Some?
    ensures r.Err? ==> r.error == SearchEmission(entityName, filter, pagination, sort, allowedFields, joinedFields, stringify).error.value
    ensures r.Ok? ==> r.value == SearchResult(contents,
      Meta(total, pagination.page, pagination.limit, TotalPages(total, pagination.limit), sort.sortBy, sort.sortOrder))
  {
    var err := SearchSteps(qb, entityName, filter, pagination, sort, allowedFields, joinedFields, stringify);
    if err.Some? {
      return Err(err.value);
    }
    var meta := Meta(total, pagination.page, pagination.limit, TotalPages(total, pagination.limit),
                     sort.sortBy, sort.sortOrder);
    return Ok(SearchResult(contents, meta));
  }

  /**
   * The query runs only when every earlier step succeeded, and it is the last thing
   * added; joins always come first, and a failing filter or sort stops the steps after it.
   */
  lemma SearchQueryRunsLast(entityName: string, filter: JsValue, pagination: PaginationDto, sort: SortDto,
                            allowedFields: seq<string>, joinedFields: seq<string>, stringify: JsValue -> string)
    ensures var e := SearchEmission(entityName, filter, pagination, sort, allowedFields, joinedFields, stringify);
      && (GetManyAndCount in e.clauses <==> e.error.None?)
      && (e.error.None? ==> e.clauses[|e.clauses| - 1] == GetManyAndCount)
      && e.clauses[..|JoinClauses(entityName, joinedFields)|] == JoinClauses(entityName, joinedFields)
  {
    var ctx := FilterContext(entityName, allowedFields, joinedFields, stringify);
    var joins := JoinClauses(entityName, joinedFields);
    var fe := FilterEmission(ctx, filter);
    var sorted := SortEmission(entityName, sort, allowedFields, joinedFields);
    var tail := PageAndQuery(pagination);
    FilterAddsOnlyAndWhere(ctx, filter);
    JoinsOncePerAlias(AllHops(entityName, joinedFields));
    if sorted.error.None? {
      SortOneOrderBy(entityName, sort, allowedFields, joinedFields);
    }
    QueryLast(joins, fe, sorted, tail);
  }

  lemma QueryLast(joins: seq<Clause>, filtered: Emission, sorted: Emission, tail: seq<Clause>)
    requires GetManyAndCount !in joins && GetManyAndCount !in filtered.clauses && GetManyAndCount !in sorted.clauses
    requires |tail| > 0 && tail[|tail| - 1] == GetManyAndCount
    requires sorted.error.Some? ==> sorted.clauses == []
    ensures var e := Then(Then(Emission(joins, None), filtered), Then(sorted, Emission(tail, None)));
      && (GetManyAndCount in e.clauses <==> e.error.None?)
      && (e.error.None? ==> e.clauses[|e.clauses| - 1] == GetManyAndCount)
      && e.clauses[..|joins|] == joins
  {
    ThenChain(joins, filtered, sorted, Emission(tail, None));
    var front := joins + filtered.clauses;
    assert GetManyAndCount !in front;
    assert front[..|joins|] == joins;
    if filtered.error.None? && sorted.error.None? {
      var all := front + sorted.clauses + tail;
      assert all[..|joins|] == joins;
      assert all[|all| - 1] == GetManyAndCount;
    }
  }
}
