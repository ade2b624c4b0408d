/** Page parameters, 64-bit page arithmetic and the rows each page shows. */
module Pagination {
  import opened Text
  import opened Wrappers

  // ------------------------------------------------------- 64-bit arithmetic

  const TWO63 := 0x8000_0000_0000_0000
  const TWO64 := 0x1_0000_0000_0000_0000
  const MAX_INT := TWO63 - 1

  /** The value a 64-bit int holds. */
  function Wrap(x: int): int {
    (x + TWO63) % TWO64 - TWO63
  }

  /** Division of ints, which truncates. */
  function Quotient(x: int, y: int): int
    requires y > 0
  {
    if x >= 0 then x / y else -(-x / y)
  }

  // ------------------------------------------------------------- parameters

  predicate IsDigit(c: char) {
    '0' <= c <= '9'
  }

  function DigitValue(c: char): nat
    requires IsDigit(c)
  {
    (c - '0') as nat
  }

  datatype Scanned = Value(n: nat) | Malformed | TooLarge

  /** Reads digits until the end, a character that is none, or a value too large
      for 64 bits, whichever comes first. */
  function Scan(s: string, read: nat): Scanned {
    if s == "" then Value(read)
    else if !IsDigit(s[0]) then Malformed
    else
      var n := 10 * read + DigitValue(s[0]);
      if n >= TWO64 then TooLarge else Scan(s[1..], n)
  }

  /** A text without its sign. */
  function Unsigned(s: string): string {
    if s != "" && (s[0] == '-' || s[0] == '+') then s[1..] else s
  }

  /** The number strconv.Atoi returns beside the error the code ignores. */
  function Atoi(s: string): int {
    var negative := s != "" && s[0] == '-';
    if Unsigned(s) == "" then 0
    else
      match Scan(Unsigned(s), 0)
      case Malformed => 0
      case TooLarge => if negative then -TWO63 else MAX_INT
      case Value(n) =>
        if negative then (if n > TWO63 then -TWO63 else -(n as int)) else if n > MAX_INT then MAX_INT else n
  }

  datatype Request = Request(page: int, pageSize: int)

  function ParsePagination(page: string, pageSize: string): (r: Request)
    ensures 1 <= r.page <= MAX_INT && 1 <= r.pageSize <= 100
  {
    var p, size := Atoi(page), Atoi(pageSize);
    Request(if p < 1 then 1 else p, if size < 1 || size > 100 then 20 else size)
  }

  // ------------------------------------------------- what the parameters say

  predicate AllDigits(s: string) {
    forall k | 0 <= k < |s| :: IsDigit(s[k])
  }

  /** The number a row of digits writes, however long it is. */
  function Number(s: string): nat
    requires AllDigits(s)
  {
    if s == "" then 0 else 10 * Number(s[..|s| - 1]) + DigitValue(s[|s| - 1])
  }

  /** The integer a text writes: digits, at least one, after a sign or none. */
  function Denoted(s: string): Option<int> {
    if Unsigned(s) == "" || !AllDigits(Unsigned(s)) then None
    else if s[0] == '-' then Some(-(Number(Unsigned(s)) as int))
    else Some(Number(Unsigned(s)))
  }

  /** Some leading digits already write a number that 64 bits do not hold. */
  ghost predicate Overlong(s: string) {
    exists n :: 0 <= n <= |s| && AllDigits(s[..n]) && Number(s[..n]) >= TWO64
  }

  lemma LeadingDigits(s: string, n: nat)
    requires n <= |s| && AllDigits(s[..n])
    ensures forall k | 0 <= k < n :: IsDigit(s[k])
  {
    assert forall k | 0 <= k < n :: s[k] == s[..n][k];
  }

  lemma NumberExtends(s: string, k: nat)
    requires k < |s| && AllDigits(s[..k]) && IsDigit(s[k])
    ensures AllDigits(s[..k + 1]) && Number(s[..k + 1]) == 10 * Number(s[..k]) + DigitValue(s[k])
  {
    assert s[..k + 1][..k] == s[..k];
  }

  lemma {:induction false} NumberGrows(s: string, k: nat, n: nat)
    requires k <= n <= |s| && AllDigits(s[..n])
    ensures AllDigits(s[..k]) && Number(s[..k]) <= Number(s[..n])
  {
    if k < n {
      NumberGrows(s, k, n - 1);
      NumberExtends(s, n - 1);
    }
  }

  /** The scan has read k digits. */
  lemma {:induction false} ScanExactly(s: string, k: nat)
    requires k <= |s| && AllDigits(s[..k]) && Number(s[..k]) < TWO64
    ensures Scan(s[k..], Number(s[..k]))
            == if Overlong(s) then TooLarge else if AllDigits(s) then Value(Number(s)) else Malformed
    decreases |s| - k
  {
    if k == |s| {
      assert s[..k] == s;
      forall n | 0 <= n <= |s| && AllDigits(s[..n]) ensures Number(s[..n]) < TWO64 {
        NumberGrows(s, n, |s|);
      }
    } else if !IsDigit(s[k]) {
      forall n | 0 <= n <= |s| && AllDigits(s[..n]) ensures Number(s[..n]) < TWO64 {
        LeadingDigits(s, n);
        NumberGrows(s, n, k);
      }
    } else {
      NumberExtends(s, k);
      if Number(s[..k + 1]) < TWO64 {
        ScanExactly(s, k + 1);
        assert s[k..][1..] == s[k + 1..];
      }
    }
  }

  lemma AtoiExactly(s: string)
    ensures Atoi(s) == match Denoted(s)
                       case Some(v) => if v > MAX_INT then MAX_INT else if v < -TWO63 then -TWO63 else v
                       case None => if !Overlong(Unsigned(s)) then 0 else if s[0] == '-' then -TWO63 else MAX_INT
  {
    var digits := Unsigned(s);
    assert digits[0..] == digits && digits[..|digits|] == digits;
    ScanExactly(digits, 0);
    if digits == "" {
      assert !Overlong(digits);
    } else if AllDigits(digits) && Overlong(digits) {
      var n :| 0 <= n <= |digits| && AllDigits(digits[..n]) && Number(digits[..n]) >= TWO64;
      NumberGrows(digits, n, |digits|);
    }
  }

  /** The page is the integer its text writes, cut to what an int holds, and otherwise 1;
      the size is the integer its text writes if that is from 1 to 100, and otherwise 20.
      A text that is no integer still asks for the greatest page if its digits are too
      many before anything else is wrong with it. */
  lemma ParsedExactly(page: string, pageSize: string)
    ensures var r := ParsePagination(page, pageSize);
            && r.page == (match Denoted(page)
                          case Some(v) => if v < 1 then 1 else if v > MAX_INT then MAX_INT else v
                          case None => if Overlong(Unsigned(page)) && page[0] != '-' then MAX_INT else 1)
            && r.pageSize == (match Denoted(pageSize)
                              case Some(v) => if 1 <= v <= 100 then v else 20
                              case None => 20)
  {
    AtoiExactly(page);
    AtoiExactly(pageSize);
  }

  lemma {:induction false} NumberItoa(n: nat)
    ensures Itoa(n) != "" && AllDigits(Itoa(n)) && Number(Itoa(n)) == n
  {
    if n >= 10 {
      NumberItoa(n / 10);
    }
  }

  /** Every page and every size up to 100 can be asked for, by its decimal text. */
  lemma RequestsRoundTrip(r: Request)
    requires 1 <= r.page <= MAX_INT && 1 <= r.pageSize <= 100
    ensures ParsePagination(Itoa(r.page), Itoa(r.pageSize)) == r
  {
    NumberItoa(r.page);
    NumberItoa(r.pageSize);
    ParsedExactly(Itoa(r.page), Itoa(r.pageSize));
  }

  // ------------------------------------------------------------------ pages

  function Offset(r: Request): int {
    Wrap(Wrap(r.page - 1) * r.pageSize)
  }

  function TotalPages(total: int, pageSize: int): int {
    if pageSize > 0 then Quotient(Wrap(total + pageSize - 1), pageSize) else 0
  }

  /** A bound cut to the rows there are. */
  function Cut<T>(rows: seq<T>, k: int): (r: nat)
    ensures r <= |rows|
  {
    if k < 0 then 0 else if k < |rows| then k else |rows|
  }

  function Between<T>(rows: seq<T>, low: int, high: int): seq<T> {
    if Cut(rows, low) <= Cut(rows, high) then rows[Cut(rows, low)..Cut(rows, high)] else []
  }

  /** The rows of LIMIT and OFFSET; a negative offset is an error. */
  function Query<T>(rows: seq<T>, offset: int, limit: nat): Option<seq<T>> {
    if offset < 0 then None else Some(Between(rows, offset, offset + limit))
  }

  function Page<T>(rows: seq<T>, r: Request): Option<seq<T>>
    requires r.pageSize >= 1
  {
    Query(rows, Offset(r), r.pageSize)
  }

  /** Where a page should start. */
  function Start(r: Request): int {
    (r.page - 1) * r.pageSize
  }

  /** The rows of pages 1 to count, one after the other. */
  function Pages<T>(rows: seq<T>, pageSize: int, count: nat): seq<T>
    requires pageSize >= 1
  {
    if count == 0 then [] else Pages(rows, pageSize, count - 1) + Page(rows, Request(count, pageSize)).GetOr([])
  }

  lemma Grows(x: nat, y: nat, z: nat)
    requires x <= y
    ensures 0 <= x * z <= y * z
  {
  }

  lemma WrapIsExactly(x: int)
    ensures Wrap(x) == x <==> -TWO63 <= x <= MAX_INT
  {
  }

  /** The offset is the intended one exactly when that fits in 64 bits. */
  lemma OffsetExactly(r: Request)
    requires 1 <= r.page <= MAX_INT && 1 <= r.pageSize <= 100
    ensures Offset(r) == Start(r) <==> Start(r) <= MAX_INT
  {
    WrapIsExactly(r.page - 1);
    Grows(0, r.page - 1, r.pageSize);
    WrapIsExactly(Start(r));
  }

  /** The page count is the least number of pages that holds all rows. */
  lemma TotalPagesIsLeast(total: nat, pageSize: int)
    requires 1 <= pageSize <= 100 && total + 99 <= MAX_INT
    ensures var k := TotalPages(total, pageSize);
            0 <= k <= total && k * pageSize >= total && (k > 0 ==> (k - 1) * pageSize < total)
  {
    var sum := total + pageSize - 1;
    WrapIsExactly(sum);
    var k := sum / pageSize;
    QuotientIsExactly(sum, pageSize, k);
    if k > 0 {
      NextStart(Request(k, pageSize));
      Grows(1, pageSize, k - 1);
    }
  }

  /** Within the page count a page starts inside the rows, at the offset computed. */
  lemma StartsInside(total: nat, r: Request)
    requires 1 <= r.pageSize <= 100 && total + 99 <= MAX_INT && 1 <= r.page <= TotalPages(total, r.pageSize)
    ensures 0 <= Start(r) < total && Offset(r) == Start(r)
    ensures Start(r) + r.pageSize < total <==> r.page < TotalPages(total, r.pageSize)
  {
    TotalPagesIsLeast(total, r.pageSize);
    StartsWithin(total, r, TotalPages(total, r.pageSize));
    OffsetExactly(r);
  }

  lemma StartsWithin(total: nat, r: Request, n: nat)
    requires r.pageSize > 0 && 1 <= r.page <= n && (n - 1) * r.pageSize < total <= n * r.pageSize
    ensures 0 <= Start(r) < total
    ensures Start(r) + r.pageSize < total <==> r.page < n
  {
    Grows(r.page - 1, n - 1, r.pageSize);
    NextStart(r);
    assert Start(Request(r.page + 1, r.pageSize)) == r.page * r.pageSize;
    if r.page < n {
      Grows(r.page, n - 1, r.pageSize);
    }
  }

  /** Page k shows the rows from (k - 1) * pageSize on: full pages, and at the
      end what is left, never nothing. */
  lemma PageShows<T>(rows: seq<T>, r: Request)
    requires 1 <= r.pageSize <= 100 && |rows| + 99 <= MAX_INT && 1 <= r.page <= TotalPages(|rows|, r.pageSize)
    ensures Page(rows, r) == Some(Between(rows, Start(r), Start(r) + r.pageSize))
    ensures r.page < TotalPages(|rows|, r.pageSize) ==> |Page(rows, r).value| == r.pageSize
    ensures 0 < |Page(rows, r).value| <= r.pageSize
  {
    StartsInside(|rows|, r);
  }

  lemma NextStart(r: Request)
    ensures Start(r) + r.pageSize == Start(Request(r.page + 1, r.pageSize))
  {
  }

  lemma {:induction false} PagesSoFar<T>(rows: seq<T>, pageSize: int, count: nat)
    requires 1 <= pageSize <= 100 && |rows| + 99 <= MAX_INT && count <= TotalPages(|rows|, pageSize)
    ensures Pages(rows, pageSize, count) == rows[..Cut(rows, Start(Request(count + 1, pageSize)))]
  {
    if count > 0 {
      var r := Request(count, pageSize);
      PagesSoFar(rows, pageSize, count - 1);
      PageJoins(rows, r);
    } else {
      assert Start(Request(1, pageSize)) == 0;
    }
  }

  lemma PageJoins<T>(rows: seq<T>, r: Request)
    requires 1 <= r.pageSize <= 100 && |rows| + 99 <= MAX_INT && 1 <= r.page <= TotalPages(|rows|, r.pageSize)
    ensures rows[..Cut(rows, Start(r))] + Page(rows, r).GetOr([])
            == rows[..Cut(rows, Start(Request(r.page + 1, r.pageSize)))]
  {
    PageShows(rows, r);
    StartsInside(|rows|, r);
    NextStart(r);
    Adjoin(rows, Start(r), Start(r) + r.pageSize);
  }

  lemma Adjoin<T>(rows: seq<T>, low: int, high: int)
    requires 0 <= low <= |rows| && low <= high
    ensures rows[..Cut(rows, low)] + Between(rows, low, high) == rows[..Cut(rows, high)]
  {
  }

  /** The pages up to the page count, put together, are the rows: each once, in
      order. */
  lemma PagesAreTheRows<T>(rows: seq<T>, pageSize: int)
    requires 1 <= pageSize <= 100 && |rows| + 99 <= MAX_INT
    ensures TotalPages(|rows|, pageSize) >= 0
    ensures Pages(rows, pageSize, TotalPages(|rows|, pageSize)) == rows
  {
    TotalPagesIsLeast(|rows|, pageSize);
    PagesSoFar(rows, pageSize, TotalPages(|rows|, pageSize));
    assert Cut(rows, Start(Request(TotalPages(|rows|, pageSize) + 1, pageSize))) == |rows|;
  }

  /** Row i is on the one page i / pageSize + 1. */
  lemma RowIsOnOnePage<T>(rows: seq<T>, r: Request, i: nat)
    requires 1 <= r.pageSize <= 100 && |rows| + 99 <= MAX_INT && i < |rows|
    requires 1 <= r.page <= TotalPages(|rows|, r.pageSize)
    ensures Page(rows, r).Some?
    ensures Offset(r) <= i < Offset(r) + |Page(rows, r).value| <==> r.page == i / r.pageSize + 1
  {
    PageShows(rows, r);
    StartsInside(|rows|, r);
    QuotientIsExactly(i, r.pageSize, r.page - 1);
  }

  lemma QuotientIsExactly(i: nat, size: nat, q: nat)
    requires size > 0
    ensures q * size <= i < q * size + size <==> q == i / size
  {
    var k := i / size;
    assert k * size <= i < k * size + size;
    if q < k {
      Grows(q + 1, k, size);
      assert (q + 1) * size == q * size + size;
    } else if k < q {
      Grows(k + 1, q, size);
      assert (k + 1) * size == k * size + size;
    }
  }

  lemma StartsBeyond(total: nat, r: Request)
    requires 1 <= r.pageSize <= 100 && total + 99 <= MAX_INT && TotalPages(total, r.pageSize) < r.page <= MAX_INT
    requires Start(r) <= MAX_INT || r.page == TotalPages(total, r.pageSize) + 1
    ensures Offset(r) == Start(r) >= total
  {
    var n := TotalPages(total, r.pageSize);
    TotalPagesIsLeast(total, r.pageSize);
    Grows(n, r.page - 1, r.pageSize);
    if r.page == n + 1 && n > 0 {
      NextStart(Request(n, r.pageSize));
    }
    OffsetExactly(r);
  }

  /** The page after the last is empty, and so is every later one as long as its
      offset fits in 64 bits. */
  lemma PastTheEndIsEmpty<T>(rows: seq<T>, r: Request)
    requires 1 <= r.pageSize <= 100 && |rows| + 99 <= MAX_INT && TotalPages(|rows|, r.pageSize) < r.page <= MAX_INT
    requires Start(r) <= MAX_INT || r.page == TotalPages(|rows|, r.pageSize) + 1
    ensures Page(rows, r) == Some([])
  {
    StartsBeyond(|rows|, r);
    BeyondIsEmpty(rows, Offset(r), r.pageSize);
  }

  lemma BeyondIsEmpty<T>(rows: seq<T>, offset: int, limit: nat)
    requires offset >= |rows|
    ensures Query(rows, offset, limit) == Some([])
  {
    assert |Between(rows, offset, offset + limit)| == 0;
  }

  /** The offset before it is made to fit in 64 bits, seen from 0 to 2^64 - 1. */
  function Residue(r: Request): int {
    Start(r) % TWO64
  }

  lemma OffsetIsResidue(r: Request)
    requires 1 <= r.page <= MAX_INT
    ensures 0 <= Residue(r) < TWO64
    ensures Offset(r) == if Residue(r) <= MAX_INT then Residue(r) else Residue(r) - TWO64
  {
    WrapIsExactly(r.page - 1);
    WrapByResidue(Start(r));
  }

  lemma WrapByResidue(x: int)
    ensures var m := x % TWO64;
            0 <= m < TWO64 && Wrap(x) == if m <= MAX_INT then m else m - TWO64
  {
    var q, m := x / TWO64, x % TWO64;
    assert x + TWO63 == q * TWO64 + (m + TWO63);
    if m <= MAX_INT {
      SameRemainder(x + TWO63, q, m + TWO63);
    } else {
      assert x + TWO63 == (q + 1) * TWO64 + (m - TWO63);
      SameRemainder(x + TWO63, q + 1, m - TWO63);
    }
  }

  lemma SameRemainder(x: int, q: int, m: int)
    requires x == q * TWO64 + m && 0 <= m < TWO64
    ensures x % TWO64 == m
  {
  }

  /** What any page that can be asked for shows, from (page - 1) * size modulo 2^64
      alone: below the number of rows, the rows from there on; from there to the
      greatest 64-bit int, nothing; above that, an error. */
  lemma PageExactly<T>(rows: seq<T>, r: Request)
    requires 1 <= r.page <= MAX_INT && 1 <= r.pageSize <= 100 && |rows| <= MAX_INT
    ensures Page(rows, r) == Some([]) <==> |rows| <= Residue(r) <= MAX_INT
    ensures Page(rows, r) == None <==> Residue(r) > MAX_INT
    ensures Residue(r) < |rows| ==> Page(rows, r) == Some(Between(rows, Residue(r), Residue(r) + r.pageSize))
  {
    OffsetIsResidue(r);
    QueryIsEmptyExactly(rows, Offset(r), r.pageSize);
  }

  lemma QueryIsEmptyExactly<T>(rows: seq<T>, offset: int, limit: nat)
    requires limit > 0
    ensures Query(rows, offset, limit) == Some([]) <==> offset >= |rows|
    ensures Query(rows, offset, limit) == None <==> offset < 0
  {
    if offset >= |rows| {
      BeyondIsEmpty(rows, offset, limit);
    } else if offset >= 0 {
      assert |Between(rows, offset, offset + limit)| > 0;
    }
  }

  /** So a page past the end is empty exactly when its start, modulo 2^64, is past
      the end too and not negative as a 64-bit int. */
  lemma PastTheEndIsEmptyExactly<T>(rows: seq<T>, r: Request)
    requires 1 <= r.pageSize <= 100 && |rows| + 99 <= MAX_INT && TotalPages(|rows|, r.pageSize) < r.page <= MAX_INT
    ensures Start(r) >= |rows|
    ensures Page(rows, r) == Some([]) <==> |rows| <= Residue(r) <= MAX_INT
  {
    var n := TotalPages(|rows|, r.pageSize);
    TotalPagesIsLeast(|rows|, r.pageSize);
    Grows(n, r.page - 1, r.pageSize);
    PageExactly(rows, r);
  }

  /** Beyond that the offset wraps: a page far past the end repeats the first. */
  lemma FarPageRepeatsFirst<T>(rows: seq<T>)
    ensures Page(rows, ParsePagination(Itoa(TWO63 / 2 + 1), Itoa(20))) == Page(rows, ParsePagination(Itoa(1), Itoa(20)))
  {
    var far, first := Request(TWO63 / 2 + 1, 20), Request(1, 20);
    RequestsRoundTrip(far);
    RequestsRoundTrip(first);
    SameRemainder(Start(far), 5, 0);
    OffsetIsResidue(far);
    OffsetIsResidue(first);
  }

  /** And the last page that can be asked for makes the query fail. */
  lemma LastPageIsRefused<T>(rows: seq<T>)
    ensures Page(rows, ParsePagination(Itoa(MAX_INT), Itoa(20))) == None
  {
    var last := Request(MAX_INT, 20);
    RequestsRoundTrip(last);
    SameRemainder(Start(last), 9, TWO64 - 40);
    OffsetIsResidue(last);
  }
}
