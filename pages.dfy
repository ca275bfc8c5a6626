/** The Rust server's `/page/{page}` handler: the requested index is reduced
    modulo the number of slides and that slide's file is served. */
module Pages {
  import opened Wrappers

  /** `page.checked_rem(count).unwrap_or(0)`. */
  function PageIndex(page: nat, count: nat): (r: nat)
    ensures count > 0 ==> r < count && (page / count) * count + r == page
    ensures count == 0 ==> r == 0
  {
    if count == 0 then 0 else page % count
  }

  /** An index already in range is served as it is. */
  lemma PageIndexInRange(page: nat, count: nat)
    requires page < count
    ensures PageIndex(page, count) == page
  {
  }

  /** Asking one full round of slides further serves the same slide. */
  lemma PageIndexPeriodic(page: nat, count: nat)
    requires count > 0
    ensures PageIndex(page + count, count) == PageIndex(page, count)
  {
    var q := page / count;
    var r := page % count;
    assert page + count == (q + 1) * count + r;
    RemainderUnique(page + count, count, q + 1, r);
  }

  /** Euclidean division has one remainder. */
  lemma RemainderUnique(a: nat, c: nat, q: nat, r: nat)
    requires c > 0 && r < c && a == q * c + r
    ensures a % c == r
  {
    var q', r' := a / c, a % c;
    assert a == q' * c + r';
    if q' != q {
      var hi, lo := if q' < q then q else q', if q' < q then q' else q;
      Distribute(hi - lo, lo, c);
      AtLeastOnce(hi - lo, c);
    }
  }

  lemma Distribute(d: nat, lo: nat, c: nat)
    ensures (lo + d) * c == lo * c + d * c
  {
  }

  lemma {:induction false} AtLeastOnce(d: nat, c: nat)
    requires d >= 1
    ensures d * c >= c
    decreases d
  {
    if d > 1 {
      AtLeastOnce(d - 1, c);
      assert d * c == (d - 1) * c + c;
    }
  }

  /** A handler's answer; `Panicked` is a Rust panic inside the handler. */
  datatype Response = Html(status: int, body: string) | Panicked

  const StatusOk := 200
  const StatusNotFound := 404

  /** The `/page/{page}` handler. `read` stands for reading a file as text,
      giving its contents or the displayed error. With no slides the index is 0
      and indexing the empty list panics. */
  function ServePage(slides: seq<string>, page: nat, read: string -> Result<string, string>): (r: Response)
    ensures |slides| == 0 <==> r.Panicked?
    ensures |slides| > 0 && read(slides[PageIndex(page, |slides|)]).Ok? ==>
      r == Html(StatusOk, read(slides[PageIndex(page, |slides|)]).value)
    ensures |slides| > 0 && read(slides[PageIndex(page, |slides|)]).Err? ==>
      r == Html(StatusNotFound, "<html><body><h1>" + read(slides[PageIndex(page, |slides|)]).error + "</h1></body></html>")
  {
    var i := PageIndex(page, |slides|);
    if i >= |slides| then Panicked
    else match read(slides[i])
      case Ok(content) => Html(StatusOk, content)
      case Err(e) => Html(StatusNotFound, "<html><body><h1>" + e + "</h1></body></html>")
  }
}
