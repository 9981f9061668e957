/** The carousel service over the Carousels table: ordered listings, lookup by id, and the
    create, update, delete and toggle commands. */
module CarouselService {
  import opened Common
  import opened Collections

  /** A carousel slide. */
  datatype Carousel = Carousel(
    id: int,
    imagenUrl: Option<string>,
    titulo: Option<string>,
    descripcion: Option<string>,
    alt: Option<string>,
    activo: bool)

  function CarouselId(c: Carousel): int
  {
    c.id
  }

  /** Id is the primary key. */
  ghost predicate UniqueIds(rows: seq<Carousel>)
  {
    UniqueKeys(rows, CarouselId)
  }

  /** The row with key `id` (`FindAsync`, `FirstOrDefaultAsync(c => c.Id == id)`). */
  function FindCarousel(rows: seq<Carousel>, id: int): (r: Option<Carousel>)
    ensures r.Some? ==> r.value in rows && r.value.id == id
    ensures r.None? <==> forall c :: c in rows ==> c.id != id
  {
    if rows == [] then None
    else if rows[0].id == id then Some(rows[0])
    else FindCarousel(rows[1..], id)
  }

  /** `OrderByDescending(c => c.Id)`. */
  function IdAtLeast(a: Carousel, b: Carousel): bool
  {
    a.id >= b.id
  }

  lemma IdAtLeastIsPreorder()
    ensures TotalPreorder(IdAtLeast)
  {
  }

  /** The table after flipping Activo of the row with key `id`. */
  function Toggled(rows: seq<Carousel>, id: int): (r: seq<Carousel>)
    ensures |r| == |rows|
  {
    seq(|rows|, i requires 0 <= i < |rows| => if rows[i].id == id then rows[i].(activo := !rows[i].activo) else rows[i])
  }

  /** The table after `SetValues(carousel)` on the row with the same key. */
  function Replaced(rows: seq<Carousel>, c: Carousel): (r: seq<Carousel>)
    ensures |r| == |rows|
  {
    seq(|rows|, i requires 0 <= i < |rows| => if rows[i].id == c.id then c else rows[i])
  }

  /** The table after removing the row with key `id`. */
  function Removed(rows: seq<Carousel>, id: int): (r: seq<Carousel>)
    ensures forall c :: c in r <==> c in rows && c.id != id
  {
    Filter(rows, (c: Carousel) => c.id != id)
  }

  /** Toggling flips only the matching row's Activo and nothing else. */
  lemma ToggleChangesOnlyTarget(rows: seq<Carousel>, id: int)
    ensures forall i :: 0 <= i < |rows| ==>
      var after := Toggled(rows, id)[i];
      && after.(activo := rows[i].activo) == rows[i]
      && (after.activo != rows[i].activo <==> rows[i].id == id)
  {
  }

  /** Toggling twice restores the table. */
  lemma ToggleTwiceRestores(rows: seq<Carousel>, id: int)
    ensures Toggled(Toggled(rows, id), id) == rows
  {
    var twice := Toggled(Toggled(rows, id), id);
    assert forall i :: 0 <= i < |rows| ==> twice[i] == rows[i];
  }

  /** Toggling keeps the keys unique and the listing of the other rows unchanged. */
  lemma ToggleKeepsKeys(rows: seq<Carousel>, id: int)
    requires UniqueIds(rows)
    ensures UniqueIds(Toggled(rows, id))
    ensures forall k :: k != id ==> FindCarousel(Toggled(rows, id), k) == FindCarousel(rows, k)
  {
    var t := Toggled(rows, id);
    forall k | k != id ensures FindCarousel(t, k) == FindCarousel(rows, k) {
      FindAfterPointwiseChange(rows, t, k);
    }
  }

  /** Two tables with the same keys position by position, equal at the rows with key `k`, find
      the same row for `k`. */
  lemma {:induction false} FindAfterPointwiseChange(a: seq<Carousel>, b: seq<Carousel>, k: int)
    requires |a| == |b|
    requires forall i :: 0 <= i < |a| ==> a[i].id == b[i].id
    requires forall i :: 0 <= i < |a| && a[i].id == k ==> a[i] == b[i]
    ensures FindCarousel(a, k) == FindCarousel(b, k)
  {
    if a != [] {
      FindAfterPointwiseChange(a[1..], b[1..], k);
    }
  }

  /** Update replaces the row with the given key by the given values, and keeps every other
      row; afterwards the key leads to the new values. */
  lemma UpdateReplacesTarget(rows: seq<Carousel>, c: Carousel)
    requires UniqueIds(rows) && FindCarousel(rows, c.id).Some?
    ensures UniqueIds(Replaced(rows, c))
    ensures FindCarousel(Replaced(rows, c), c.id) == Some(c)
    ensures forall i :: 0 <= i < |rows| && rows[i].id != c.id ==> Replaced(rows, c)[i] == rows[i]
  {
    var t := Replaced(rows, c);
    var j :| 0 <= j < |rows| && rows[j] == FindCarousel(rows, c.id).value;
    assert t[j] == c;
    FindFirst(t, j);
  }

  /** In a table with unique keys, the row at position `j` is the one found for its key. */
  lemma {:induction false} FindFirst(rows: seq<Carousel>, j: nat)
    requires UniqueIds(rows) && j < |rows|
    ensures FindCarousel(rows, rows[j].id) == Some(rows[j])
  {
    if j > 0 {
      UniqueKeysTail(rows, CarouselId);
      assert rows[1..][j - 1] == rows[j];
      FindFirst(rows[1..], j - 1);
    }
  }

  /** Deleting removes only the rows with that key: afterwards the key is gone and every other
      row is still there, as often as before. */
  lemma DeleteRemovesOnlyTarget(rows: seq<Carousel>, id: int)
    ensures FindCarousel(Removed(rows, id), id).None?
    ensures forall c: Carousel :: c.id != id ==> multiset(Removed(rows, id))[c] == multiset(rows)[c]
  {
    FilterMultiset(rows, (c: Carousel) => c.id != id);
  }

  /** The Carousels table with the next value of its identity column. */
  class CarouselTable {
    var rows: seq<Carousel>
    var nextId: int

    ghost predicate Valid()
      reads this
    {
      && UniqueIds(rows)
      && nextId > 0
      && forall c :: c in rows ==> c.id < nextId
    }

    constructor ()
      ensures Valid() && rows == [] && nextId == 1
    {
      rows := [];
      nextId := 1;
    }

    /** GetAllCarouselsAsync: every row, the highest id first. */
    function GetAllCarousels(): (r: seq<Carousel>)
      reads this
      ensures multiset(r) == multiset(rows)
      ensures SortedBy(r, IdAtLeast)
    {
      IdAtLeastIsPreorder();
      SortBySorted(rows, IdAtLeast);
      SortBy(rows, IdAtLeast)
    }

    /** GetActiveCarouselsAsync: exactly the active rows, the highest id first. */
    function GetActiveCarousels(): (r: seq<Carousel>)
      reads this
      ensures forall c :: multiset(r)[c] == if c.activo then multiset(rows)[c] else 0
      ensures forall c :: c in r ==> c.activo
      ensures SortedBy(r, IdAtLeast)
    {
      var active := Filter(rows, (c: Carousel) => c.activo);
      FilterMultiset(rows, (c: Carousel) => c.activo);
      IdAtLeastIsPreorder();
      SortBySorted(active, IdAtLeast);
      var r := SortBy(active, IdAtLeast);
      assert forall c :: c in r <==> c in multiset(r);
      r
    }

    /** GetCarouselByIdAsync: the row with that key, or the not-found error; never nothing. */
    function GetCarouselById(id: int): (r: Result<Carousel>)
      reads this
      ensures r.Ok? ==> r.value in rows && r.value.id == id
      ensures r.Err? <==> forall c :: c in rows ==> c.id != id
      ensures r.Err? ==> r.error == NotFound
    {
      match FindCarousel(rows, id)
      case Some(c) => Ok(c)
      case None => Err(NotFound)
    }

    /** CreateCarouselAsync: the row is added with the key the identity column generates. */
    method CreateCarousel(carousel: Carousel) returns (created: Carousel)
      requires Valid()
      modifies this
      ensures Valid()
      ensures created == carousel.(id := old(nextId))
      ensures rows == old(rows) + [created] && nextId == old(nextId) + 1
    {
      created := carousel.(id := nextId);
      rows := rows + [created];
      nextId := nextId + 1;
    }

    /** UpdateCarouselAsync: nothing for an unknown key; otherwise the row's values become the
        given ones. */
    method UpdateCarousel(carousel: Carousel) returns (r: Option<Carousel>)
      requires Valid()
      modifies this
      ensures Valid() && nextId == old(nextId)
      ensures FindCarousel(old(rows), carousel.id).None? ==> r.None? && rows == old(rows)
      ensures FindCarousel(old(rows), carousel.id).Some? ==> r == Some(carousel) && rows == Replaced(old(rows), carousel)
    {
      var existing := FindCarousel(rows, carousel.id);
      if existing.None? {
        return None;
      }
      UpdateReplacesTarget(rows, carousel);
      assert forall i :: 0 <= i < |rows| ==> Replaced(rows, carousel)[i].id == rows[i].id;
      rows := Replaced(rows, carousel);
      r := Some(carousel);
    }

    /** DeleteCarouselAsync: false for an unknown key; otherwise the row is removed. */
    method DeleteCarousel(id: int) returns (ok: bool)
      requires Valid()
      modifies this
      ensures Valid() && nextId == old(nextId)
      ensures ok <==> FindCarousel(old(rows), id).Some?
      ensures rows == if ok then Removed(old(rows), id) else old(rows)
    {
      if FindCarousel(rows, id).None? {
        return false;
      }
      FilterKeepsUniqueKeys(rows, (c: Carousel) => c.id != id, CarouselId);
      rows := Removed(rows, id);
      ok := true;
    }

    /** ToggleCarouselStatusAsync: false for an unknown key; otherwise the row's Activo flips. */
    method ToggleCarouselStatus(id: int) returns (ok: bool)
      requires Valid()
      modifies this
      ensures Valid() && nextId == old(nextId)
      ensures ok <==> FindCarousel(old(rows), id).Some?
      ensures rows == if ok then Toggled(old(rows), id) else old(rows)
    {
      if FindCarousel(rows, id).None? {
        return false;
      }
      ToggleKeepsKeys(rows, id);
      assert forall i :: 0 <= i < |rows| ==> Toggled(rows, id)[i].id == rows[i].id;
      rows := Toggled(rows, id);
      ok := true;
    }
  }
}
