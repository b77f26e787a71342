/** The navigation links of a page of connections. */
module Pagination {
  import opened Domain

  const MAX_INT := 0x7fff_ffff_ffff_ffff

  /** Addition of 64-bit integers wraps around. */
  function Add(a: int, b: int): int {
    if a + b > MAX_INT then a + b - 2 * (MAX_INT + 1)
    else if a + b < -MAX_INT - 1 then a + b + 2 * (MAX_INT + 1)
    else a + b
  }

  /** A page link, before it is written into a URL. */
  datatype Link = Link(offset: int, limit: int)

  datatype Links = Links(first: Option<Link>, last: Option<Link>, next: Option<Link>, prev: Option<Link>)

  function OffsetOfLastPage(total: int, limit: int): int
    requires limit > 0
  {
    var lastPage := ((if total - 1 > 0 then total - 1 else 0) as real / limit as real).Floor;
    lastPage * limit
  }

  function NextLink(offset: int, limit: int, total: int): Option<Link> {
    var nextOffset := Add(offset, limit);
    if total != 0 && nextOffset < total then Some(Link(nextOffset, limit)) else None
  }

  function BuildNavigationLinks(offset: int, limit: int, total: int): Links
    requires limit > 0
  {
    var lastOffset := OffsetOfLastPage(total, limit);
    var previousOffset := if offset - limit < 0 then 0 else offset - limit;
    if total == 0 then Links(None, None, None, None)
    else
      Links(
        Some(Link(0, limit)),
        Some(Link(lastOffset, limit)),
        NextLink(offset, limit, total),
        if offset > 0 then Some(Link(previousOffset, limit)) else None)
  }

  lemma FloorOfQuotient(a: nat, b: nat)
    requires b > 0
    ensures (a as real / b as real).Floor == a / b
  {
    var q, r := a / b, a % b;
    assert a == q * b + r;
    assert a as real == q as real * b as real + r as real;
    assert a as real / b as real == q as real + r as real / b as real;
    assert 0.0 <= r as real / b as real < 1.0;
  }

  lemma ProductGrows(x: int, y: int, b: int)
    requires x < y && b > 0
    ensures x * b + b <= y * b
  {
    assert (y - x - 1) * b >= 0;
    assert y * b == (y - x - 1) * b + x * b + b;
  }

  /** Division with remainder is unique. */
  lemma QuotientIs(a: int, b: int, q: int, r: int)
    requires b > 0 && 0 <= r < b && a == q * b + r
    ensures a / b == q && a % b == r
  {
    var d := a / b;
    assert a == d * b + a % b;
    if d < q { ProductGrows(d, q, b); }
    if q < d { ProductGrows(q, d, b); }
  }

  /** The last offset is the one multiple of the limit from which a page ends the list. */
  lemma LastOffsetIsUnique(total: int, limit: int)
    requires limit > 0 && total > 0
    ensures forall o :: o == OffsetOfLastPage(total, limit) <==> (o % limit == 0 && total - limit <= o < total)
  {
    FloorOfQuotient(total - 1, limit);
    var q := (total - 1) / limit;
    assert total - 1 == q * limit + (total - 1) % limit;
    QuotientIs(q * limit, limit, q, 0);
    forall o | o % limit == 0 && total - limit <= o < total ensures o == q * limit {
      OnlyOneMultiple(o, q * limit, limit, total);
    }
  }

  lemma OnlyOneMultiple(a: int, b: int, limit: int, total: int)
    requires limit > 0 && a % limit == 0 && b % limit == 0
    requires total - limit <= a < total && total - limit <= b < total
    ensures a == b
  {
    var p, q := a / limit, b / limit;
    assert a == p * limit && b == q * limit;
    if p < q { ProductGrows(p, q, limit); }
    if q < p { ProductGrows(q, p, limit); }
  }

  lemma NextMultiple(offset: int, limit: int)
    requires limit > 0 && offset % limit == 0
    ensures (offset + limit) % limit == 0 && (offset - limit) % limit == 0
  {
    var q := offset / limit;
    assert offset == q * limit;
    assert offset + limit == (q + 1) * limit && offset - limit == (q - 1) * limit;
    QuotientIs(offset + limit, limit, q + 1, 0);
    QuotientIs(offset - limit, limit, q - 1, 0);
  }

  /** A multiple below another lies a whole step below it. */
  lemma MultiplesApart(a: int, b: int, limit: int)
    requires limit > 0 && a % limit == 0 && b % limit == 0 && a < b
    ensures a + limit <= b
  {
    var p, q := a / limit, b / limit;
    assert a == p * limit && b == q * limit;
    if q < p { ProductGrows(q, p, limit); }
    if p < q { ProductGrows(p, q, limit); }
  }

  /** `Next` is there exactly when rows follow the page, and leads to the first of them. */
  predicate NextIsRight(offset: int, limit: int, total: int)
    requires limit > 0
  {
    BuildNavigationLinks(offset, limit, total).next ==
    if offset + limit < total then Some(Link(offset + limit, limit)) else None
  }

  /** For a list that is not empty, exactly when the sum of offset and limit is in range. */
  lemma NextIsRightExactlyWhen(offset: int, limit: int, total: int)
    requires 0 <= offset <= MAX_INT && 0 < limit <= MAX_INT && 0 < total <= MAX_INT
    ensures NextIsRight(offset, limit, total) <==> offset + limit <= MAX_INT
  {
  }

  /** A large limit, which the query validation allows, makes a link to a negative offset. */
  lemma OverflowingNext()
    ensures BuildNavigationLinks(1, MAX_INT, 1).next == Some(Link(-MAX_INT - 1, MAX_INT))
    ensures !NextIsRight(1, MAX_INT, 1)
  {
  }

  predicate InRange(offset: int, limit: int, total: int) {
    0 <= offset && 0 < limit && offset + limit <= MAX_INT && 0 < total <= MAX_INT
  }

  /** `Prev` undoes `Next`, at any offset, exactly when the sum of offset and limit is in range. */
  lemma PrevUndoesNextExactlyWhen(offset: int, limit: int, total: int)
    requires 0 <= offset <= MAX_INT && 0 < limit <= MAX_INT && 0 < total <= MAX_INT
    requires NextLink(offset, limit, total).Some?
    ensures var next := NextLink(offset, limit, total).value.offset;
            BuildNavigationLinks(next, limit, total).prev == Some(Link(offset, limit)) <==> offset + limit <= MAX_INT
  {
  }

  /** From a page on the grid, `Next` is missing exactly on the last page, and both
      `Next` and `Last` lead to pages of the grid inside the list. */
  lemma ForwardLinksStayOnGrid(offset: int, limit: int, total: int)
    requires InRange(offset, limit, total) && offset % limit == 0 && offset < total
    ensures var l := BuildNavigationLinks(offset, limit, total);
            && (l.next.None? <==> l.last == Some(Link(offset, limit)))
            && (l.next.Some? ==> l.next.value.offset % limit == 0 && offset < l.next.value.offset < total
                                 && l.next.value.limit == limit)
            && l.last.Some? && l.last.value.offset % limit == 0 && offset <= l.last.value.offset < total
  {
    LastOffsetIsUnique(total, limit);
    NextMultiple(offset, limit);
    var last := OffsetOfLastPage(total, limit);
    if last < offset { MultiplesApart(last, offset, limit); }
  }

  lemma PrevStaysOnGrid(offset: int, limit: int, total: int)
    requires PageFits(offset, limit, total) && offset % limit == 0
    ensures var l := BuildNavigationLinks(offset, limit, total);
            && l.first == Some(Link(0, limit))
            && (l.prev.None? <==> offset == 0)
            && (l.prev.Some? ==> l.prev.value.offset % limit == 0 && 0 <= l.prev.value.offset < offset
                                 && l.prev.value.limit == limit)
  {
    NextMultiple(offset, limit);
    if 0 < offset { MultiplesApart(0, offset, limit); }
  }

  /** Sizes that fit the machine, and a page with rows. */
  predicate PageFits(offset: int, limit: int, total: int) {
    0 <= offset < total <= MAX_INT && 0 < limit <= MAX_INT
  }

  /** The offset of the next page, unless the query validation refuses the link. */
  function NextAccepted(offset: int, limit: int, total: int): Option<int> {
    var next := NextLink(offset, limit, total);
    if next.Some? && next.value.offset >= 0 then Some(next.value.offset) else None
  }

  /** A sum that overflows is refused, so `Next` is followed exactly while rows follow. */
  lemma NextIsFollowedWhileRowsFollow(offset: int, limit: int, total: int)
    requires 0 <= offset <= MAX_INT && 0 < limit <= MAX_INT && 0 < total <= MAX_INT
    ensures NextAccepted(offset, limit, total) == if offset + limit < total then Some(offset + limit) else None
  {
  }

  /** The offset after following `Next` while that leads to a page. */
  function FollowNext(offset: int, limit: int, total: int): int
    requires PageFits(offset, limit, total)
    decreases total - offset
  {
    var next := NextAccepted(offset, limit, total);
    if next.Some? then FollowNext(next.value, limit, total) else offset
  }

  /** From any page, on the grid or not, `Next` ends on the page that ends the list. */
  lemma {:induction false} NextLeadsToEnd(offset: int, limit: int, total: int)
    requires PageFits(offset, limit, total)
    ensures var end := FollowNext(offset, limit, total);
            total - limit <= end < total && offset <= end && (end - offset) % limit == 0
    decreases total - offset
  {
    NextIsFollowedWhileRowsFollow(offset, limit, total);
    if offset + limit < total {
      NextLeadsToEnd(offset + limit, limit, total);
      NextMultiple(FollowNext(offset, limit, total) - offset - limit, limit);
    } else {
      QuotientIs(0, limit, 0, 0);
    }
  }

  /** From any page of the grid that page is `Last`. There `Next` is missing exactly when
      the offset of `Last` and the limit add up without overflow; otherwise it is refused. */
  lemma NextLeadsToLast(offset: int, limit: int, total: int)
    requires PageFits(offset, limit, total) && offset % limit == 0
    ensures var end := FollowNext(offset, limit, total);
            && Some(Link(end, limit)) == BuildNavigationLinks(0, limit, total).last
            && (NextLink(end, limit, total).None? <==> OffsetOfLastPage(total, limit) + limit <= MAX_INT)
  {
    NextLeadsToEnd(offset, limit, total);
    var end := FollowNext(offset, limit, total);
    SumOfMultiples(end - offset, offset, limit);
    LastOffsetIsUnique(total, limit);
  }

  lemma SumOfMultiples(a: int, b: int, limit: int)
    requires limit > 0 && a % limit == 0 && b % limit == 0
    ensures (a + b) % limit == 0
  {
    var p, q := a / limit, b / limit;
    assert a == p * limit && b == q * limit;
    assert a + b == (p + q) * limit;
    QuotientIs(a + b, limit, p + q, 0);
  }

  lemma LastOffsetIsInside(total: int, limit: int)
    requires limit > 0 && total > 0
    ensures 0 <= OffsetOfLastPage(total, limit) < total
  {
    LastOffsetIsUnique(total, limit);
    FloorOfQuotient(total - 1, limit);
    assert (total - 1) / limit * limit >= 0;
  }

  /** The link leads to an offset of the list, with the same limit. */
  predicate IsInside(link: Option<Link>, limit: int, total: int) {
    link.Some? && 0 <= link.value.offset < total && link.value.limit == limit
  }

  lemma OtherLinksAreInside(offset: int, limit: int, total: int)
    requires PageFits(offset, limit, total)
    ensures var links := BuildNavigationLinks(offset, limit, total);
            && IsInside(links.first, limit, total) && IsInside(links.last, limit, total)
            && (links.prev.Some? ==> IsInside(links.prev, limit, total))
  {
    LastOffsetIsInside(total, limit);
  }

  /** How many times `Prev` can be followed. */
  function PrevSteps(offset: int, limit: int, total: int): nat
    requires 0 <= offset && 0 < limit && 0 < total
    decreases offset
  {
    var prev := BuildNavigationLinks(offset, limit, total).prev;
    if prev.Some? then 1 + PrevSteps(prev.value.offset, limit, total) else 0
  }

  /** From any offset, on the grid or not, `Prev` reaches the start in
      `offset / limit` steps, rounded up. */
  lemma {:induction false} PrevLeadsToStart(offset: int, limit: int, total: int)
    requires 0 <= offset && 0 < limit && 0 < total
    ensures PrevSteps(offset, limit, total) == (offset + limit - 1) / limit
    decreases offset
  {
    if offset > limit {
      PrevLeadsToStart(offset - limit, limit, total);
      QuotientDown(offset + limit - 1, limit);
    } else if offset > 0 {
      PrevLeadsToStart(0, limit, total);
      QuotientDown(offset + limit - 1, limit);
      SmallQuotient(offset - 1, limit);
      SmallQuotient(limit - 1, limit);
    } else {
      SmallQuotient(limit - 1, limit);
    }
  }

  lemma SmallQuotient(a: int, b: int)
    requires 0 <= a < b
    ensures a / b == 0
  {
  }

  lemma QuotientDown(a: int, b: int)
    requires b > 0
    ensures (a - b) / b == a / b - 1
  {
    var q := a / b;
    assert a == q * b + a % b;
    assert a - b == (q - 1) * b + a % b;
    QuotientIs(a - b, b, q - 1, a % b);
  }
}
