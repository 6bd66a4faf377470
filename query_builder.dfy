/**
 * The TypeORM select query builder, as the core uses it: a log of the clauses it is
 * asked to add, in call order. Nothing here evaluates SQL. A `Brackets` condition is
 * recorded as the clauses its callback added to the fresh builder it was handed; the
 * callback runs inside the `andWhere`/`orWhere` call that receives it.
 */
module QueryBuilders {
  import opened JsValues

  /** One entry of a parameter object such as `{ [paramName]: value }`. */
  datatype Binding = Binding(name: string, value: JsValue)

  datatype Condition =
    | Predicate(sql: string, params: seq<Binding>)
    | Brackets(clauses: seq<Clause>)

  datatype Clause =
    | AndWhere(condition: Condition)
    | OrWhere(condition: Condition)
    | LeftJoin(path: string, alias: string)
    | LeftJoinAndSelect(path: string, alias: string)
    | AddSelect(selection: string, selectionAlias: string)
    | OrderBy(sort: string, order: string)
    | Skip(skip: int)
    | Take(take: int)
    | GetManyAndCount

  /** A `where` clause, as opposed to joins, selections, ordering and paging. */
  predicate IsWhere(c: Clause) {
    c.AndWhere? || c.OrWhere?
  }

  class QueryBuilder {
    var log: seq<Clause>

    constructor()
      ensures log == []
    {
      log := [];
    }

    method AndWhere(c: Condition)
      modifies this
      ensures log == old(log) + [Clause.AndWhere(c)]
    {
      log := log + [Clause.AndWhere(c)];
    }

    method OrWhere(c: Condition)
      modifies this
      ensures log == old(log) + [Clause.OrWhere(c)]
    {
      log := log + [Clause.OrWhere(c)];
    }

    method LeftJoin(path: string, alias: string)
      modifies this
      ensures log == old(log) + [Clause.LeftJoin(path, alias)]
    {
      log := log + [Clause.LeftJoin(path, alias)];
    }

    method LeftJoinAndSelect(path: string, alias: string)
      modifies this
      ensures log == old(log) + [Clause.LeftJoinAndSelect(path, alias)]
    {
      log := log + [Clause.LeftJoinAndSelect(path, alias)];
    }

    method AddSelect(selection: string, selectionAlias: string)
      modifies this
      ensures log == old(log) + [Clause.AddSelect(selection, selectionAlias)]
    {
      log := log + [Clause.AddSelect(selection, selectionAlias)];
    }

    method OrderBy(sort: string, order: string)
      modifies this
      ensures log == old(log) + [Clause.OrderBy(sort, order)]
    {
      log := log + [Clause.OrderBy(sort, order)];
    }

    method Skip(n: int)
      modifies this
      ensures log == old(log) + [Clause.Skip(n)]
    {
      log := log + [Clause.Skip(n)];
    }

    method Take(n: int)
      modifies this
      ensures log == old(log) + [Clause.Take(n)]
    {
      log := log + [Clause.Take(n)];
    }

    method GetManyAndCount()
      modifies this
      ensures log == old(log) + [Clause.GetManyAndCount]
    {
      log := log + [Clause.GetManyAndCount];
    }
  }
}
