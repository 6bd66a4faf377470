/** `applyPagination`: offset paging over the rows the earlier steps select. */
module Pagination {
  import opened QueryBuilders

  /** The paging part of a request; the request validation keeps both at 1 or more. */
  datatype PaginationDto = PaginationDto(page: int, limit: int)

  const DefaultPagination := PaginationDto(1, 10)

  predicate ValidPagination(p: PaginationDto) {
    p.page >= 1 && p.limit >= 1
  }

  /** The number of rows skipped before `page`. */
  function Offset(page: int, limit: int): int {
    (page - 1) * limit
  }

  method ApplyPagination(qb: QueryBuilder, dto: PaginationDto)
    modifies qb
    ensures qb.log == old(qb.log) + [Skip(Offset(dto.page, dto.limit)), Take(dto.limit)]
  {
    qb.Skip((dto.page - 1) * dto.limit);
    qb.Take(dto.limit);
  }

  /** A valid page never skips a negative number of rows, and the first page skips none. */
  lemma OffsetOfValidPage(dto: PaginationDto)
    requires ValidPagination(dto)
    ensures Offset(1, dto.limit) == 0
    ensures Offset(dto.page, dto.limit) >= 0
  {
    if dto.page > 1 {
      PagesDisjoint(1, dto.page, dto.limit);
    }
  }

  /** Each page starts where the one before it ends. */
  lemma PagesContiguous(page: int, limit: int)
    ensures Offset(page + 1, limit) == Offset(page, limit) + limit
  {
  }

  /** The windows `[Offset(p), Offset(p) + limit)` of two distinct pages do not overlap. */
  lemma {:induction false} PagesDisjoint(p: int, q: int, limit: int)
    requires limit >= 1 && p < q
    ensures Offset(p, limit) + limit <= Offset(q, limit)
    decreases q - p
  {
    PagesContiguous(p, limit);
    if p + 1 < q {
      PagesDisjoint(p + 1, q, limit);
    }
  }
}
