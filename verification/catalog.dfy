/**
 * The catalog: `refreshPlaylist` rebuilds the playlist from a directory
 * listing, and the `/api/playlist/order` route replaces it wholesale.
 */
module Catalog {
  import opened Optional
  import opened JsValues
  import opened PathExt

  /** `a` can be obtained from `b` by deleting elements: same relative order. */
  ghost predicate IsSubsequence<T>(a: seq<T>, b: seq<T>)
    decreases |b|
  {
    |a| == 0
    || (|b| > 0
        && ((a[0] == b[0] && IsSubsequence(a[1..], b[1..])) || IsSubsequence(a, b[1..])))
  }

  /**
   * `files.filter(file => path.extname(file).toLowerCase() === '.flac')`:
   * the `.flac` names, each as often as it is listed, in listing order.
   */
  function FlacOnly(files: seq<string>): (r: seq<string>)
    ensures forall x :: multiset(r)[x] == if IsFlac(x) then multiset(files)[x] else 0
    ensures IsSubsequence(r, files)
  {
    if |files| == 0 then []
    else
      var rest := FlacOnly(files[1..]);
      assert files == [files[0]] + files[1..];
      if IsFlac(files[0]) then
        [files[0]] + rest
      else
        assert forall x :: x in rest ==> IsFlac(x) by {
          forall x | x in rest ensures IsFlac(x) {
            assert multiset(rest)[x] > 0;
          }
        }
        assert |rest| > 0 ==> rest[0] != files[0];
        rest
  }

  /** One playlist entry per name, as the JSON strings the playlist holds. */
  function AsEntries(names: seq<string>): (r: seq<Json>)
    ensures |r| == |names|
    ensures forall i :: 0 <= i < |r| ==> r[i] == JString(names[i])
  {
    seq(|names|, i requires 0 <= i < |names| => JString(names[i]))
  }

  lemma FlacMembers(files: seq<string>)
    ensures forall x :: x in FlacOnly(files) <==> x in files && IsFlac(x)
  {
    var names := FlacOnly(files);
    forall x ensures x in names <==> x in files && IsFlac(x) {
      assert multiset(names)[x] == if IsFlac(x) then multiset(files)[x] else 0;
    }
  }

  lemma EntriesMembers(names: seq<string>)
    ensures forall x :: JString(x) in AsEntries(names) <==> x in names
    ensures forall e :: e in AsEntries(names) ==> e.JString? && e.s in names
  {
    var r := AsEntries(names);
    forall x | x in names ensures JString(x) in r {
      var i :| 0 <= i < |names| && names[i] == x;
      assert r[i] == JString(x);
    }
  }

  /**
   * `refreshPlaylist`: the playlist becomes the `.flac` entries of the listing;
   * a listing that could not be read (`None`) leaves the playlist empty.
   */
  function Refresh(listing: Option<seq<string>>): (r: seq<Json>)
    ensures listing.None? ==> r == []
    ensures forall e :: e in r ==> e.JString? && IsFlac(e.s)
    ensures listing.Some? ==>
              forall x :: JString(x) in r <==> x in listing.value && IsFlac(x)
  {
    match listing
    case None => []
    case Some(files) =>
      FlacMembers(files);
      EntriesMembers(FlacOnly(files));
      AsEntries(FlacOnly(files))
  }

  /**
   * The `/api/playlist/order` route's check: it rejects (status 400, `None`) a
   * body whose `newOrder` is falsy or not an array, and otherwise hands the
   * array over as the new playlist, unchecked. The falsy test adds nothing:
   * the route accepts exactly the arrays, whatever they contain.
   */
  function OrderRoute(newOrder: Option<Json>): (r: Option<seq<Json>>)
    ensures r.Some? <==> newOrder.Some? && newOrder.value.JArray?
    ensures r.Some? ==> r.value == newOrder.value.items
  {
    if !Truthy(newOrder) || !IsArray(newOrder) then None else Some(newOrder.value.items)
  }
}
