/** Listing: the filter and its normalisation, the ordered result, and its pages. */
module Listing {
  import opened Entities

  // ---------- 64-bit arithmetic ----------

  const MAX_INT64: int := 0x7fff_ffff_ffff_ffff
  const TWO_64: int := 0x1_0000_0000_0000_0000

  /** The value a 64-bit signed integer holds after wrapping around. */
  function Wrap64(x: int): int
  {
    (x + MAX_INT64 + 1) % TWO_64 - MAX_INT64 - 1
  }

  lemma WrapIsIdentityInRange(x: int)
    requires -MAX_INT64 - 1 <= x <= MAX_INT64
    ensures Wrap64(x) == x
  {
  }

  /** Division that truncates toward zero. */
  function TruncDiv(a: int, b: int): int
    requires b > 0
  {
    if a >= 0 then a / b else -((-a) / b)
  }

  // ---------- Text ----------

  predicate IsSpace(ch: char)
  {
    var n := ch as int;
    9 <= n <= 13 || n in {32, 0x85, 0xA0, 0x1680, 0x2028, 0x2029, 0x202F, 0x205F, 0x3000} || 0x2000 <= n <= 0x200A
  }

  function TrimLeft(s: string): string
  {
    if s != "" && IsSpace(s[0]) then TrimLeft(s[1..]) else s
  }

  function TrimRight(s: string): string
  {
    if s != "" && IsSpace(s[|s| - 1]) then TrimRight(s[..|s| - 1]) else s
  }

  function TrimSpace(s: string): string
  {
    TrimRight(TrimLeft(s))
  }

  /** The ASCII letters, and the two letters outside ASCII whose lower case is in it. */
  function Lower(ch: char): char
  {
    if 'A' <= ch <= 'Z' then (ch as int + 32) as char
    else if ch as int == 0x130 then 'i'
    else if ch as int == 0x212A then 'k'
    else ch
  }

  /** The ASCII letters, and the two letters outside ASCII whose upper case is in it. */
  function Upper(ch: char): char
  {
    if 'a' <= ch <= 'z' then (ch as int - 32) as char
    else if ch as int == 0x131 then 'I'
    else if ch as int == 0x17F then 'S'
    else ch
  }

  function ToLower(s: string): string
  {
    seq(|s|, i requires 0 <= i < |s| => Lower(s[i]))
  }

  function ToUpper(s: string): string
  {
    seq(|s|, i requires 0 <= i < |s| => Upper(s[i]))
  }

  /** `s` has no space at either end. */
  predicate Trimmed(s: string)
  {
    s == "" || (!IsSpace(s[0]) && !IsSpace(s[|s| - 1]))
  }

  lemma {:induction false} TrimLeftHead(s: string)
    ensures TrimLeft(s) == "" || !IsSpace(TrimLeft(s)[0])
  {
    if s != "" && IsSpace(s[0]) {
      TrimLeftHead(s[1..]);
    }
  }

  lemma {:induction false} TrimRightEnds(s: string)
    requires s == "" || !IsSpace(s[0])
    ensures Trimmed(TrimRight(s))
  {
    if s != "" && IsSpace(s[|s| - 1]) {
      assert |s| > 1;
      TrimRightEnds(s[..|s| - 1]);
    }
  }

  lemma TrimSpaceTrims(s: string)
    ensures Trimmed(TrimSpace(s))
    ensures Trimmed(s) ==> TrimSpace(s) == s
  {
    TrimLeftHead(s);
    TrimRightEnds(TrimLeft(s));
  }

  // ---------- The filter ----------

  /** A date of the query: absent, not a date, or a day number. */
  datatype DateField = NoDate | BadDate | Day(n: int)

  datatype Filter = Filter(
    page: int,
    limit: int,
    search: string,
    status: string,
    dateFrom: DateField,
    dateTo: DateField,
    sortBy: string,
    sortOrder: string)

  function Normalized(f: Filter): Filter
  {
    Filter(if f.page < 1 then 1 else f.page,
           if f.limit < 1 then 20 else if f.limit > 100 then 100 else f.limit,
           TrimSpace(f.search),
           ToUpper(TrimSpace(f.status)),
           f.dateFrom,
           f.dateTo,
           if f.sortBy != "amount" then "created_at" else f.sortBy,
           if ToLower(TrimSpace(f.sortOrder)) != "asc" then "desc" else "asc")
  }

  /** What the repository relies on: it splices the sort column and direction into
      the query and multiplies page by limit. */
  predicate QuerySafe(f: Filter)
  {
    && f.page >= 1 && 1 <= f.limit <= 100
    && f.sortBy in {"amount", "created_at"} && f.sortOrder in {"asc", "desc"}
    && Trimmed(f.search) && Trimmed(f.status)
    && forall ch :: ch in f.status ==> !('a' <= ch <= 'z')
  }

  lemma UpperKeepsTrimmed(s: string)
    requires Trimmed(s)
    ensures Trimmed(ToUpper(s)) && ToUpper(ToUpper(s)) == ToUpper(s)
    ensures forall ch :: ch in ToUpper(s) ==> !('a' <= ch <= 'z')
  {
  }

  /** Normalising yields a safe query, whatever came in, and once is enough. */
  lemma NormalizedIsSafeAndStable(f: Filter)
    ensures QuerySafe(Normalized(f)) && Normalized(Normalized(f)) == Normalized(f)
  {
    TrimSpaceTrims(f.search);
    TrimSpaceTrims(f.status);
    UpperKeepsTrimmed(TrimSpace(f.status));
    TrimSpaceTrims(Normalized(f).search);
    TrimSpaceTrims(Normalized(f).status);
    assert Trimmed("asc") && Trimmed("desc");
    TrimSpaceTrims("asc");
    TrimSpaceTrims("desc");
    assert ToLower("asc") == "asc";
    assert ToLower("desc") == "desc";
  }

  lemma {:induction false} TrimLeftDropsSpaces(s: string) returns (left: string)
    ensures s == left + TrimLeft(s) && forall ch :: ch in left ==> IsSpace(ch)
  {
    if s != "" && IsSpace(s[0]) {
      var rest := TrimLeftDropsSpaces(s[1..]);
      left := [s[0]] + rest;
      assert left + TrimLeft(s) == [s[0]] + (rest + TrimLeft(s[1..])) == [s[0]] + s[1..] == s;
    } else {
      left := "";
      assert left + s == s;
    }
  }

  lemma {:induction false} TrimRightDropsSpaces(s: string) returns (right: string)
    ensures s == TrimRight(s) + right && forall ch :: ch in right ==> IsSpace(ch)
  {
    if s != "" && IsSpace(s[|s| - 1]) {
      var front, last := s[..|s| - 1], [s[|s| - 1]];
      var rest := TrimRightDropsSpaces(front);
      right := rest + last;
      assert TrimRight(s) + right == (TrimRight(front) + rest) + last == front + last == s;
    } else {
      right := "";
      assert s + right == s;
    }
  }

  /** Trimming drops spaces at the two ends, all of them, and nothing else. */
  lemma TrimSpaceIsMiddle(s: string) returns (left: string, right: string)
    ensures s == left + TrimSpace(s) + right && Trimmed(TrimSpace(s))
    ensures (forall ch :: ch in left ==> IsSpace(ch)) && (forall ch :: ch in right ==> IsSpace(ch))
    ensures IsSpace(' ') && IsSpace('\t') && IsSpace('\n')
    ensures forall ch :: 'A' <= ch <= 'z' || '0' <= ch <= '9' ==> !IsSpace(ch)
  {
    left := TrimLeftDropsSpaces(s);
    right := TrimRightDropsSpaces(TrimLeft(s));
    TrimSpaceTrims(s);
    assert left + (TrimSpace(s) + right) == left + TrimSpace(s) + right;
  }

  /** What normalising makes of each field, word by word. */
  lemma NormalizedWords(f: Filter)
    ensures var n, order, status := Normalized(f), TrimSpace(f.sortOrder), TrimSpace(f.status);
            && n.page == (if f.page >= 1 then f.page else 1)
            && n.limit == (if f.limit >= 101 then 100 else if f.limit >= 1 then f.limit else 20)
            && n.sortBy == (if f.sortBy == "amount" then "amount" else "created_at")
            && n.sortOrder in {"asc", "desc"}
            && (n.sortOrder == "asc" <==>
                  |order| == 3 && order[0] in {'a', 'A'} && order[1] in {'s', 'S'} && order[2] in {'c', 'C'})
            && n.search == TrimSpace(f.search) && n.dateFrom == f.dateFrom && n.dateTo == f.dateTo
            && |n.status| == |status|
            && (forall i :: 0 <= i < |status| ==>
                  && ('a' <= status[i] <= 'z' ==> n.status[i] as int == status[i] as int - 32)
                  && ('A' <= status[i] <= 'Z' ==> n.status[i] == status[i]))
            && (f.sortOrder == "" ==> n.sortOrder == "desc")
  {
    var order := TrimSpace(f.sortOrder);
    if |order| == 3 && order[0] in {'a', 'A'} && order[1] in {'s', 'S'} && order[2] in {'c', 'C'} {
      assert ToLower(order) == "asc";
    }
    if ToLower(order) == "asc" {
      var lower := ToLower(order);
      assert lower[0] == Lower(order[0]) && lower[1] == Lower(order[1]) && lower[2] == Lower(order[2]);
    }
    TrimSpaceTrims("");
  }

  /** The filter object a handler shares with the usecase. */
  class DisbursementFilter {
    var f: Filter

    constructor (f: Filter)
      ensures this.f == f
    {
      this.f := f;
    }

    method Normalize()
      modifies this
      ensures f == Normalized(old(f))
      ensures f.page == if old(f.page) >= 1 then old(f.page) else 1
      ensures f.limit == if old(f.limit) >= 101 then 100 else if old(f.limit) >= 1 then old(f.limit) else 20
      ensures f.sortBy == if old(f.sortBy) == "amount" then "amount" else "created_at"
      ensures old(f.sortOrder) == "" ==> f.sortOrder == "desc"
    {
      NormalizedWords(f);
      if f.page < 1 {
        f := f.(page := 1);
      }
      if f.limit < 1 {
        f := f.(limit := 20);
      }
      if f.limit > 100 {
        f := f.(limit := 100);
      }
      if f.sortBy != "amount" {
        f := f.(sortBy := "created_at");
      }
      f := f.(sortOrder := ToLower(TrimSpace(f.sortOrder)));
      if f.sortOrder != "asc" {
        f := f.(sortOrder := "desc");
      }
      f := f.(search := TrimSpace(f.search));
      f := f.(status := ToUpper(TrimSpace(f.status)));
    }
  }

  // ---------- The rows a filter selects, in order ----------

  const DAY: Time := 86_400_000_000_000

  function StatusName(s: Status): string
  {
    match s
    case Pending => "PENDING"
    case Approved => "APPROVED"
    case Rejected => "REJECTED"
  }

  predicate OccursAt(s: string, part: string, i: nat)
    requires i + |part| <= |s|
  {
    s[i..i + |part|] == part
  }

  predicate Contains(s: string, part: string)
  {
    exists i :: 0 <= i <= |s| - |part| && OccursAt(s, part, i)
  }

  /** The pattern match of a query: `%` stands for any text, `_` for any character,
      and a backslash takes the next character literally. */
  predicate Like(s: string, pattern: string)
    decreases |s| + |pattern|
  {
    if pattern == "" then s == ""
    else if pattern[0] == '%' then Like(s, pattern[1..]) || (s != "" && Like(s[1..], pattern))
    else if pattern[0] == '\\' && |pattern| > 1 then s != "" && s[0] == pattern[1] && Like(s[1..], pattern[2..])
    else s != "" && (pattern[0] == '_' || s[0] == pattern[0]) && Like(s[1..], pattern[1..])
  }

  /** Text that means itself in a pattern. */
  predicate Plain(part: string)
  {
    forall i :: 0 <= i < |part| ==> part[i] != '%' && part[i] != '_' && part[i] != '\\'
  }

  lemma {:induction false} LikeAnything(s: string)
    ensures Like(s, "%")
  {
    if s != "" {
      LikeAnything(s[1..]);
    }
  }

  lemma {:induction false} LikePrefix(s: string, part: string)
    requires Plain(part)
    ensures Like(s, part + "%") <==> part <= s
  {
    if part == "" {
      assert part + "%" == "%";
      LikeAnything(s);
    } else if s != "" && s[0] == part[0] {
      assert (part + "%")[1..] == part[1..] + "%" && (part + "%")[0] == part[0];
      LikePrefix(s[1..], part[1..]);
      assert part == [part[0]] + part[1..] && s == [s[0]] + s[1..];
    } else {
      assert (part + "%")[0] == part[0];
    }
  }

  /** What the wildcards stand for. */
  lemma WildcardsMean(s: string)
    ensures Like(s, "%")
    ensures Like(s, "_") <==> |s| == 1
    ensures Like(s, "\\%") <==> s == "%"
    ensures Like(s, "\\_") <==> s == "_"
  {
    LikeAnything(s);
    assert ("\\%")[2..] == "" && ("\\_")[2..] == "" && ("_")[1..] == "";
  }

  /** A search text without wildcards selects exactly the names that contain it. */
  lemma {:induction false} SearchFindsPart(s: string, part: string)
    requires Plain(part)
    ensures Like(s, "%" + part + "%") <==> Contains(s, part)
  {
    var pattern := "%" + part + "%";
    assert pattern[1..] == part + "%";
    LikePrefix(s, part);
    if part <= s {
      assert OccursAt(s, part, 0);
    } else if s == "" {
      assert !Contains(s, part);
    } else {
      SearchFindsPart(s[1..], part);
      ContainsInTail(s, part);
    }
  }

  lemma ContainsInTail(s: string, part: string)
    requires s != "" && !(part <= s)
    ensures Contains(s, part) <==> Contains(s[1..], part)
  {
    if i :| 0 <= i <= |s| - |part| && OccursAt(s, part, i) {
      assert i > 0;
      assert s[1..][i - 1..i - 1 + |part|] == s[i..i + |part|];
      assert OccursAt(s[1..], part, i - 1);
    }
    if i :| 0 <= i <= |s[1..]| - |part| && OccursAt(s[1..], part, i) {
      assert s[1..][i..i + |part|] == s[i + 1..i + 1 + |part|];
      assert OccursAt(s, part, i + 1);
    }
  }

  predicate Matches(row: Row, f: Filter)
  {
    && row.deletedAt.None?
    && (f.search != "" ==> Like(row.d.recipientName, "%" + f.search + "%"))
    && (f.status != "" ==> StatusName(row.d.status) == f.status)
    && (f.dateFrom.Day? ==> row.d.createdAt >= f.dateFrom.n * DAY)
    && (f.dateTo.Day? ==> row.d.createdAt < (f.dateTo.n + 1) * DAY)
  }

  function Selected(rows: map<Id, Row>, f: Filter): set<Id>
  {
    set id | id in rows && Matches(rows[id], f)
  }

  function SortKey(row: Row, f: Filter): int
  {
    if f.sortBy == "amount" then row.d.amount else row.d.createdAt
  }

  /** The order of the result: the sort column, then the id where the column ties. */
  predicate Precedes(rows: map<Id, Row>, f: Filter, a: Id, b: Id)
    requires a in rows && b in rows
  {
    var x, y := SortKey(rows[a], f), SortKey(rows[b], f);
    if x == y then a < b else if f.sortOrder == "asc" then x < y else x > y
  }

  lemma PrecedesTransitive(rows: map<Id, Row>, f: Filter, a: Id, b: Id, x: Id)
    requires a in rows && b in rows && x in rows
    requires Precedes(rows, f, a, b) && Precedes(rows, f, b, x)
    ensures Precedes(rows, f, a, x)
  {
  }

  lemma {:induction false} HasFirst(rows: map<Id, Row>, f: Filter, ids: set<Id>) returns (first: Id)
    requires ids != {} && ids <= rows.Keys
    ensures first in ids && forall x :: x in ids && x != first ==> Precedes(rows, f, first, x)
  {
    first :| first in ids;
    var rest := ids - {first};
    assert ids == rest + {first};
    if rest != {} {
      var other := HasFirst(rows, f, rest);
      if Precedes(rows, f, other, first) {
        first := other;
      } else {
        forall x | x in rest && x != other ensures Precedes(rows, f, first, x) {
          PrecedesTransitive(rows, f, first, other, x);
        }
      }
    }
  }

  /** The first of some rows. */
  function First(rows: map<Id, Row>, f: Filter, ids: set<Id>): (m: Id)
    requires ids != {} && ids <= rows.Keys
    ensures m in ids && forall x :: x in ids && x != m ==> Precedes(rows, f, m, x)
  {
    assert exists m :: m in ids && forall x :: x in ids && x != m ==> Precedes(rows, f, m, x) by {
      var m := HasFirst(rows, f, ids);
    }
    var m :| m in ids && forall x :: x in ids && x != m ==> Precedes(rows, f, m, x);
    m
  }

  function Ordered(rows: map<Id, Row>, f: Filter, ids: set<Id>): (s: seq<Id>)
    requires ids <= rows.Keys
    ensures |s| == |ids| && (forall x :: x in s <==> x in ids)
    ensures forall i, j :: 0 <= i < j < |s| ==> Precedes(rows, f, s[i], s[j])
  {
    if ids == {} then []
    else
      var m := First(rows, f, ids);
      [m] + Ordered(rows, f, ids - {m})
  }

  function RowsOf(rows: map<Id, Row>, ids: seq<Id>): (ds: seq<Disbursement>)
    requires forall id :: id in ids ==> id in rows
    ensures |ds| == |ids| && forall i :: 0 <= i < |ids| ==> ids[i] in rows && ds[i] == rows[ids[i]].d
  {
    if ids == [] then [] else [rows[ids[0]].d] + RowsOf(rows, ids[1..])
  }

  /** The whole result of a filter, before paging. */
  function Listed(rows: map<Id, Row>, f: Filter): seq<Disbursement>
  {
    RowsOf(rows, Ordered(rows, f, Selected(rows, f)))
  }

  // ---------- Pages ----------

  function Min(a: int, b: int): int
  {
    if a < b then a else b
  }

  /** At most `limit` elements from `offset` on; an offset that is not positive
      counts as none. */
  function Slice<T>(s: seq<T>, offset: int, limit: int): seq<T>
    requires limit >= 0
  {
    var lo := Min(if offset > 0 then offset else 0, |s|);
    s[lo..Min(lo + limit, |s|)]
  }

  /** The page a query returns: its offset is computed in 64 bits. */
  function PageOf<T>(s: seq<T>, page: int, limit: int): seq<T>
    requires limit >= 0
  {
    Slice(s, Wrap64((page - 1) * limit), limit)
  }

  /** The page asked for. */
  function TruePage<T>(s: seq<T>, page: int, limit: int): seq<T>
    requires limit >= 0
  {
    Slice(s, (page - 1) * limit, limit)
  }

  lemma SliceEmptyIff<T>(s: seq<T>, offset: int, limit: int)
    requires limit >= 1
    ensures Slice(s, offset, limit) == [] <==> s == [] || |s| <= offset
  {
  }

  lemma SliceWrapped<T>(s: seq<T>, offset: int, limit: int)
    requires offset >= 0 && limit >= 1 && |s| <= MAX_INT64
    ensures Slice(s, Wrap64(offset), limit) == Slice(s, offset, limit)
            <==> offset <= MAX_INT64 || s == [] || |s| <= Wrap64(offset)
  {
    if offset <= MAX_INT64 {
      WrapIsIdentityInRange(offset);
    } else {
      SliceEmptyIff(s, offset, limit);
      SliceEmptyIff(s, Wrap64(offset), limit);
    }
  }

  lemma OffsetGrows(a: int, b: int, limit: int)
    requires a <= b && limit >= 0
    ensures a * limit <= b * limit
  {
  }

  /** A page number is served right iff its offset fits 64 bits, or the list ends
      before the offset that the overflow leaves. */
  lemma PageIsRightIff<T>(s: seq<T>, page: int, limit: int)
    requires page >= 1 && limit >= 1 && |s| <= MAX_INT64
    ensures PageOf(s, page, limit) == TruePage(s, page, limit)
            <==> (page - 1) * limit <= MAX_INT64 || s == [] || |s| <= Wrap64((page - 1) * limit)
  {
    var offset := (page - 1) * limit;
    OffsetGrows(0, page - 1, limit);
    SliceWrapped(s, offset, limit);
  }

  /** A page number that reaches the query as it came and wraps: the first page is
      served in its place. */
  lemma WrappedPage<T>(s: seq<T>)
    requires 0 < |s| <= MAX_INT64
    ensures PageOf(s, 92_233_720_368_547_760, 100) == TruePage(s, 1, 100) != []
    ensures TruePage(s, 92_233_720_368_547_760, 100) == []
  {
    assert 92_233_720_368_547_759 * 100 > MAX_INT64;
  }

  function Pages<T>(s: seq<T>, limit: int, n: nat): seq<T>
    requires limit >= 0
  {
    if n == 0 then [] else Pages(s, limit, n - 1) + PageOf(s, n, limit)
  }

  lemma OneMorePage<T>(s: seq<T>, offset: nat, limit: nat)
    ensures s[..Min(offset, |s|)] + Slice(s, offset, limit) == s[..Min(offset + limit, |s|)]
  {
  }

  lemma Products(n: int, limit: int)
    requires n >= 1 && limit >= 1
    ensures n * limit == (n - 1) * limit + limit && (n - 1) * limit >= 0
    ensures (n - 2) * limit <= (n - 1) * limit
  {
  }

  lemma {:induction false} FirstPages<T>(s: seq<T>, limit: int, n: nat, end: int)
    requires limit >= 1 && |s| <= MAX_INT64 && end == n * limit && end - limit <= MAX_INT64
    ensures end >= 0 && Pages(s, limit, n) == s[..Min(end, |s|)]
  {
    if n > 0 {
      Products(n, limit);
      FirstPages(s, limit, n - 1, end - limit);
      NextPage(s, limit, n, end - limit);
    }
  }

  lemma NextPage<T>(s: seq<T>, limit: int, n: nat, offset: int)
    requires n > 0 && limit >= 1 && offset == (n - 1) * limit && 0 <= offset <= MAX_INT64
    ensures s[..Min(offset, |s|)] + PageOf(s, n, limit) == s[..Min(offset + limit, |s|)]
  {
    WrapIsIdentityInRange(offset);
    OneMorePage(s, offset, limit);
  }

  datatype Pagination = Pagination(total: int, page: int, perPage: int, totalPages: int)

  function NewPagination(total: int, page: int, perPage: int): Pagination
  {
    var size := if perPage < 1 then 10 else perPage;
    var pages := TruncDiv(Wrap64(Wrap64(total + size) - 1), size);
    Pagination(total, if page < 1 then 1 else page, size, if pages < 1 then 1 else pages)
  }

  /** Page and size as asked for, or page one and ten rows. */
  lemma PaginationFields(total: int, page: int, perPage: int)
    ensures var p := NewPagination(total, page, perPage);
            && p.total == total && p.totalPages >= 1
            && p.page == (if page >= 1 then page else 1)
            && p.perPage == (if perPage >= 1 then perPage else 10)
  {
  }

  /** The number of pages of a list: the ceiling, and at least one. */
  function PageCount(total: int, perPage: int): int
    requires perPage >= 1
  {
    var ceiling := (total + perPage - 1) / perPage;
    if ceiling < 1 then 1 else ceiling
  }

  lemma WrapTwice(x: int, y: int)
    ensures Wrap64(Wrap64(x) + y) == Wrap64(x + y)
  {
  }

  /** The announced page count is right iff the sum it is computed from fits 64
      bits or one page holds everything. */
  lemma TotalPagesRightIff(total: int, page: int, perPage: int)
    requires 0 <= total <= MAX_INT64 && 1 <= perPage <= MAX_INT64
    ensures NewPagination(total, page, perPage).totalPages == PageCount(total, perPage)
            <==> total + perPage - 1 <= MAX_INT64 || total <= perPage
  {
    var sum := total + perPage - 1;
    WrapTwice(total + perPage, -1);
    if sum <= MAX_INT64 {
      WrapIsIdentityInRange(sum);
    } else {
      assert Wrap64(sum) == sum - TWO_64 < 0;
      CeilingIsOne(total, perPage);
      TruncNegative(sum - TWO_64, perPage);
    }
  }

  /** The count that wraps: the largest list is announced as one page of 100. */
  lemma WrappedCount(page: int)
    ensures NewPagination(MAX_INT64, page, 100).totalPages == 1 < PageCount(MAX_INT64, 100)
  {
    assert MAX_INT64 + 100 - 1 == MAX_INT64 + 99;
  }

  lemma TruncNegative(a: int, b: int)
    requires a < 0 < b
    ensures TruncDiv(a, b) <= 0
  {
  }

  lemma CeilingIsOne(total: int, perPage: int)
    requires 0 <= total && 1 <= perPage
    ensures PageCount(total, perPage) == 1 <==> total <= perPage
  {
    var sum := total + perPage - 1;
    assert sum == perPage * (sum / perPage) + sum % perPage;
    if total <= perPage {
      assert sum < 2 * perPage;
      assert sum / perPage <= 1;
    } else {
      assert sum >= 2 * perPage;
      assert sum / perPage >= 2;
    }
  }

  lemma PageCountCovers(total: int, limit: int)
    requires 0 <= total && 1 <= limit
    ensures var n := PageCount(total, limit); n >= 1 && n * limit >= total && n * limit - limit <= total
  {
    var sum, q := total + limit - 1, (total + limit - 1) / limit;
    assert sum == limit * q + sum % limit;
    assert limit * q == q * limit && (q - 1) * limit == q * limit - limit;
  }

  lemma LaterPageEmpty<T>(s: seq<T>, limit: int, p: int, offset: int)
    requires 1 <= limit && offset == (p - 1) * limit && |s| <= offset <= MAX_INT64
    ensures PageOf(s, p, limit) == []
  {
    WrapIsIdentityInRange(offset);
    SliceEmptyIff(s, offset, limit);
  }

  /** Pages tile the list: pages one to the announced count, put together, give the
      list, each row once; every later page whose offset fits 64 bits is empty. */
  lemma PagesTile<T>(s: seq<T>, limit: int)
    requires 1 <= limit <= MAX_INT64 && |s| + limit - 1 <= MAX_INT64
    ensures var n := NewPagination(|s|, 1, limit).totalPages;
            && n >= 1
            && Pages(s, limit, n) == s
            && (forall p :: p > n && (p - 1) * limit <= MAX_INT64 ==> PageOf(s, p, limit) == [])
  {
    TotalPagesRightIff(|s|, 1, limit);
    PageCountCovers(|s|, limit);
    var n := PageCount(|s|, limit);
    FirstPages(s, limit, n, n * limit);
    forall p | p > n && (p - 1) * limit <= MAX_INT64 ensures PageOf(s, p, limit) == [] {
      OffsetGrows(n, p - 1, limit);
      LaterPageEmpty(s, limit, p, (p - 1) * limit);
    }
  }

  lemma ListedIffMatches(rows: map<Id, Row>, f: Filter, d: Disbursement)
    requires forall id :: id in rows ==> rows[id].d.id == id
    ensures d in Listed(rows, f) <==> d.id in rows && rows[d.id].d == d && Matches(rows[d.id], f)
  {
    var ids := Ordered(rows, f, Selected(rows, f));
    if d.id in rows && rows[d.id].d == d && Matches(rows[d.id], f) {
      assert d.id in ids;
      var i :| 0 <= i < |ids| && ids[i] == d.id;
      assert Listed(rows, f)[i] == d;
    }
    if d in Listed(rows, f) {
      var i :| 0 <= i < |ids| && Listed(rows, f)[i] == d;
      assert ids[i] in ids;
    }
  }

  lemma MatchMeans(row: Row, f: Filter)
    ensures Matches(row, f) <==>
              && row.deletedAt == None
              && (f.search != "" ==> Like(row.d.recipientName, "%" + f.search + "%"))
              && (f.status != "" ==>
                    || (f.status == "PENDING" && row.d.status == Pending)
                    || (f.status == "APPROVED" && row.d.status == Approved)
                    || (f.status == "REJECTED" && row.d.status == Rejected))
              && (f.dateFrom.Day? ==> f.dateFrom.n * 86_400_000_000_000 <= row.d.createdAt)
              && (f.dateTo.Day? ==> row.d.createdAt < (f.dateTo.n + 1) * 86_400_000_000_000)
  {
  }

  /** Every matching row is listed, and nothing else. */
  lemma ListedIsComplete(rows: map<Id, Row>, f: Filter, d: Disbursement)
    requires forall id :: id in rows ==> rows[id].d.id == id
    ensures d in Listed(rows, f) <==>
              && d.id in rows && rows[d.id] == Row(d, None)
              && (f.search != "" ==> Like(d.recipientName, "%" + f.search + "%"))
              && (f.status != "" ==>
                    || (f.status == "PENDING" && d.status == Pending)
                    || (f.status == "APPROVED" && d.status == Approved)
                    || (f.status == "REJECTED" && d.status == Rejected))
              && (f.dateFrom.Day? ==> f.dateFrom.n * 86_400_000_000_000 <= d.createdAt)
              && (f.dateTo.Day? ==> d.createdAt < (f.dateTo.n + 1) * 86_400_000_000_000)
  {
    ListedIffMatches(rows, f, d);
    if d.id in rows {
      MatchMeans(rows[d.id], f);
    }
  }

  /** `a` may stand before `b`: the column of the sort, in its direction. */
  lemma PrecedesByColumn(rows: map<Id, Row>, f: Filter, a: Id, b: Id)
    requires a in rows && b in rows && Precedes(rows, f, a, b)
    ensures var x, y := rows[a].d, rows[b].d;
            && (f.sortBy == "amount" && f.sortOrder == "asc" ==> x.amount <= y.amount)
            && (f.sortBy == "amount" && f.sortOrder == "desc" ==> x.amount >= y.amount)
            && (f.sortBy == "created_at" && f.sortOrder == "asc" ==> x.createdAt <= y.createdAt)
            && (f.sortBy == "created_at" && f.sortOrder == "desc" ==> x.createdAt >= y.createdAt)
  {
  }

  /** The list is in the order of the sort column, up or down as asked for, and no
      row is listed twice. */
  lemma ListedInOrder(rows: map<Id, Row>, f: Filter, i: nat, j: nat)
    requires i < j < |Listed(rows, f)|
    ensures var a, b := Listed(rows, f)[i], Listed(rows, f)[j];
            && (f.sortBy == "amount" && f.sortOrder == "asc" ==> a.amount <= b.amount)
            && (f.sortBy == "amount" && f.sortOrder == "desc" ==> a.amount >= b.amount)
            && (f.sortBy == "created_at" && f.sortOrder == "asc" ==> a.createdAt <= b.createdAt)
            && (f.sortBy == "created_at" && f.sortOrder == "desc" ==> a.createdAt >= b.createdAt)
            && ((forall id :: id in rows ==> rows[id].d.id == id) ==> a.id != b.id)
  {
    var ids := Ordered(rows, f, Selected(rows, f));
    assert ids[i] in ids && ids[j] in ids;
    PrecedesByColumn(rows, f, ids[i], ids[j]);
  }

  // ---------- What a list call answers ----------

  datatype ListAnswer = ListRows(rows: seq<Disbursement>, total: int) | ListRefused

  /** A status that is none of the three, a date that is no date, or a range that
      ends before it starts. */
  predicate BadQuery(f: Filter)
  {
    || f.status !in {"", "PENDING", "APPROVED", "REJECTED"}
    || f.dateFrom.BadDate? || f.dateTo.BadDate?
    || (f.dateFrom.Day? && f.dateTo.Day? && f.dateFrom.n > f.dateTo.n)
  }

  /** The answer to a normalised filter. */
  function ListSpec(rows: map<Id, Row>, f: Filter): ListAnswer
    requires f.limit >= 0
  {
    if BadQuery(f) then ListRefused
    else ListRows(PageOf(Listed(rows, f), f.page, f.limit), |Listed(rows, f)|)
  }

  /** The rows of an answer are consecutive rows of the list. */
  lemma PageElements<T>(s: seq<T>, page: int, limit: int)
    requires page >= 1 && limit >= 1 && (page - 1) * limit <= MAX_INT64
    ensures var offset := (page - 1) * limit;
            && offset >= 0
            && |PageOf(s, page, limit)|
               == (if |s| <= offset then 0 else if |s| - offset <= limit then |s| - offset else limit)
            && forall i :: 0 <= i < |PageOf(s, page, limit)| ==> PageOf(s, page, limit)[i] == s[offset + i]
  {
    OffsetGrows(0, page - 1, limit);
    WrapIsIdentityInRange((page - 1) * limit);
  }

  /** `a` may stand before `b`, up or down the column asked for. */
  predicate MayPrecede(a: Disbursement, b: Disbursement, sortBy: string, sortOrder: string)
  {
    && (sortBy == "amount" && sortOrder == "asc" ==> a.amount <= b.amount)
    && (sortBy == "amount" && sortOrder == "desc" ==> a.amount >= b.amount)
    && (sortBy == "created_at" && sortOrder == "asc" ==> a.createdAt <= b.createdAt)
    && (sortBy == "created_at" && sortOrder == "desc" ==> a.createdAt >= b.createdAt)
  }

  predicate InOrder(ds: seq<Disbursement>, sortBy: string, sortOrder: string)
  {
    forall i, j :: 0 <= i < j < |ds| ==> MayPrecede(ds[i], ds[j], sortBy, sortOrder)
  }

  lemma SliceInOrder(ds: seq<Disbursement>, offset: int, limit: int, sortBy: string, sortOrder: string)
    requires limit >= 0 && InOrder(ds, sortBy, sortOrder)
    ensures InOrder(Slice(ds, offset, limit), sortBy, sortOrder)
  {
  }

  lemma ListedIsSorted(rows: map<Id, Row>, f: Filter)
    ensures InOrder(Listed(rows, f), f.sortBy, f.sortOrder)
  {
    var whole := Listed(rows, f);
    forall i, j | 0 <= i < j < |whole| ensures MayPrecede(whole[i], whole[j], f.sortBy, f.sortOrder) {
      ListedInOrder(rows, f, i, j);
    }
  }

  /** What the answer to a normalised filter says. */
  lemma ListSpecMeans(rows: map<Id, Row>, f: Filter)
    requires f.limit >= 0
    ensures var answer := ListSpec(rows, f);
            && (answer.ListRefused? <==>
                  || f.status !in {"", "PENDING", "APPROVED", "REJECTED"}
                  || f.dateFrom.BadDate? || f.dateTo.BadDate?
                  || (f.dateFrom.Day? && f.dateTo.Day? && f.dateFrom.n > f.dateTo.n))
            && (answer.ListRows? ==>
                  && answer.total == |Listed(rows, f)| && answer.rows == PageOf(Listed(rows, f), f.page, f.limit)
                  && InOrder(answer.rows, f.sortBy, f.sortOrder))
  {
    ListedIsSorted(rows, f);
    SliceInOrder(Listed(rows, f), Wrap64((f.page - 1) * f.limit), f.limit, f.sortBy, f.sortOrder);
  }

  /** The responses to pages one to `n` of one query, put together. */
  function PagesAnswered(rows: map<Id, Row>, asked: Filter, n: nat): seq<Disbursement>
    requires !BadQuery(Normalized(asked))
  {
    if n == 0 then []
    else
      var f := Normalized(asked.(page := n));
      assert f == Normalized(asked).(page := n);
      PagesAnswered(rows, asked, n - 1) + ListSpec(rows, f).rows
  }

  lemma FirstIsUnique(rows: map<Id, Row>, f: Filter, ids: set<Id>, a: Id, b: Id)
    requires ids <= rows.Keys && a in ids && b in ids
    requires forall x :: x in ids && x != a ==> Precedes(rows, f, a, x)
    requires forall x :: x in ids && x != b ==> Precedes(rows, f, b, x)
    ensures a == b
  {
  }

  lemma FirstIgnoresPage(rows: map<Id, Row>, f: Filter, page: int, ids: set<Id>)
    requires ids != {} && ids <= rows.Keys
    ensures First(rows, f.(page := page), ids) == First(rows, f, ids)
  {
    var b := First(rows, f.(page := page), ids);
    assert forall x :: x in ids && x != b ==> Precedes(rows, f.(page := page), b, x);
    FirstIsUnique(rows, f, ids, First(rows, f, ids), b);
  }

  /** The order is total, so the result does not depend on the page asked for. */
  lemma {:induction false} OrderedIgnoresPage(rows: map<Id, Row>, f: Filter, page: int, ids: set<Id>)
    requires ids <= rows.Keys
    ensures Ordered(rows, f.(page := page), ids) == Ordered(rows, f, ids)
  {
    if ids != {} {
      FirstIgnoresPage(rows, f, page, ids);
      OrderedIgnoresPage(rows, f, page, ids - {First(rows, f, ids)});
    }
  }

  lemma ListedIgnoresPage(rows: map<Id, Row>, f: Filter, page: int)
    ensures Listed(rows, f.(page := page)) == Listed(rows, f)
  {
    assert Selected(rows, f.(page := page)) == Selected(rows, f);
    OrderedIgnoresPage(rows, f, page, Selected(rows, f));
  }

  lemma PageOfNormalized(asked: Filter, n: nat)
    requires n > 0
    ensures Normalized(asked.(page := n)) == Normalized(asked).(page := n)
  {
  }

  lemma {:induction false} AnsweredArePages(rows: map<Id, Row>, asked: Filter, n: nat)
    requires !BadQuery(Normalized(asked))
    ensures PagesAnswered(rows, asked, n) == Pages(Listed(rows, Normalized(asked)), Normalized(asked).limit, n)
  {
    if n > 0 {
      AnsweredArePages(rows, asked, n - 1);
      ListedIgnoresPage(rows, Normalized(asked), n);
      PageOfNormalized(asked, n);
    }
  }

  /** The listing of a query, over an unchanging table: the responses to pages one
      to the announced number of pages, put together, are the whole list. */
  lemma ListingTiles(rows: map<Id, Row>, asked: Filter)
    requires |rows| <= MAX_INT64 - 99 && !BadQuery(Normalized(asked))
    ensures var f := Normalized(asked);
            var n := NewPagination(|Listed(rows, f)|, f.page, f.limit).totalPages;
            n >= 1 && PagesAnswered(rows, asked, n) == Listed(rows, f)
  {
    var f := Normalized(asked);
    var whole := Listed(rows, f);
    assert 1 <= f.limit <= 100;
    ListedBounded(rows, f);
    PagesTile(whole, f.limit);
    var n := NewPagination(|whole|, f.page, f.limit).totalPages;
    assert n == NewPagination(|whole|, 1, f.limit).totalPages;
    AnsweredArePages(rows, asked, n);
  }

  lemma ListedBounded(rows: map<Id, Row>, f: Filter)
    ensures |Listed(rows, f)| <= |rows|
  {
    SubsetSize(Selected(rows, f), rows.Keys);
  }

  lemma {:induction false} SubsetSize(a: set<Id>, b: set<Id>)
    requires a <= b
    ensures |a| <= |b|
  {
    if a != {} {
      var x :| x in a;
      SubsetSize(a - {x}, b - {x});
    }
  }
}
