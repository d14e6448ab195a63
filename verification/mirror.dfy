/**
 The in-memory list of shopping items (`belanja`) that the market screen
 renders, and the two sequence operations that keep it in step with the
 store after a change: replacing the fields of the items with a given id
 (`Array.prototype.map`) and dropping the items with a given id
 (`Array.prototype.filter`).
 */
module Mirror {
  import opened Decimal

  /** One shopping item: its id, name, category and price. */
  datatype Belanja = Belanja(id: int, title: string, category: string, harga: Num)

  /** `{...item, title, category, harga}`: the item with new fields and its own id. */
  function WithFields(item: Belanja, title: string, category: string, harga: Num): Belanja {
    item.(title := title, category := category, harga := harga)
  }

  /**
   The update branch of saving: every item whose id is `id` takes the new
   fields, every other item is left alone, and the list keeps its length and
   order.
   */
  function UpdateById(xs: seq<Belanja>, id: int, title: string, category: string, harga: Num): (ys: seq<Belanja>)
    ensures |ys| == |xs|
    ensures forall i :: 0 <= i < |xs| ==> ys[i].id == xs[i].id
    ensures forall i :: 0 <= i < |xs| && xs[i].id == id ==>
              ys[i].title == title && ys[i].category == category && ys[i].harga == harga
    ensures forall i :: 0 <= i < |xs| && xs[i].id != id ==> ys[i] == xs[i]
  {
    if xs == [] then []
    else
      var head := if xs[0].id == id then WithFields(xs[0], title, category, harga) else xs[0];
      [head] + UpdateById(xs[1..], id, title, category, harga)
  }

  /** The number of items whose id is `id`. */
  function CountId(xs: seq<Belanja>, id: int): (n: nat)
    ensures n <= |xs|
  {
    if xs == [] then 0 else (if xs[0].id == id then 1 else 0) + CountId(xs[1..], id)
  }

  /** `ys` is `xs` with some items left out and the rest in their original order. */
  predicate IsSubseq(ys: seq<Belanja>, xs: seq<Belanja>)
    decreases |xs|
  {
    if ys == [] then true
    else if xs == [] then false
    else (ys[0] == xs[0] && IsSubseq(ys[1..], xs[1..])) || IsSubseq(ys, xs[1..])
  }

  /**
   The delete branch: the items whose id differs from `id`. Every item with
   that id goes, every other item stays, and the result is shorter by exactly
   the number of items that had the id.
   */
  function RemoveById(xs: seq<Belanja>, id: int): (ys: seq<Belanja>)
    ensures forall r :: r in ys <==> r in xs && r.id != id
    ensures |ys| == |xs| - CountId(xs, id)
  {
    if xs == [] then []
    else if xs[0].id == id then RemoveById(xs[1..], id)
    else [xs[0]] + RemoveById(xs[1..], id)
  }

  /** Deleting keeps the relative order of the items that remain. */
  lemma {:induction false} RemoveIsSubseq(xs: seq<Belanja>, id: int)
    ensures IsSubseq(RemoveById(xs, id), xs)
    decreases |xs|
  {
    if xs != [] {
      RemoveIsSubseq(xs[1..], id);
      var rest := RemoveById(xs[1..], id);
      if xs[0].id != id {
        assert ([xs[0]] + rest)[1..] == rest;
      }
    }
  }

  /** Deleting from a joined list is deleting from each part. */
  lemma {:induction false} RemoveAppend(a: seq<Belanja>, b: seq<Belanja>, id: int)
    ensures RemoveById(a + b, id) == RemoveById(a, id) + RemoveById(b, id)
    decreases |a|
  {
    if a == [] {
      assert a + b == b;
    } else {
      assert (a + b)[0] == a[0];
      assert (a + b)[1..] == a[1..] + b;
      RemoveAppend(a[1..], b, id);
    }
  }

  /** A subsequence whose ids all differ from `id` is no longer than the items without that id. */
  lemma {:induction false} KeptSubseqBound(zs: seq<Belanja>, xs: seq<Belanja>, id: int)
    requires IsSubseq(zs, xs)
    requires forall i :: 0 <= i < |zs| ==> zs[i].id != id
    ensures |zs| <= |xs| - CountId(xs, id)
    decreases |xs|
  {
    if zs != [] && xs != [] {
      if zs[0] == xs[0] && IsSubseq(zs[1..], xs[1..]) {
        KeptSubseqBound(zs[1..], xs[1..], id);
      } else {
        KeptSubseqBound(zs, xs[1..], id);
      }
    }
  }

  /**
   Deleting is the ONLY order-preserving way to keep exactly the items
   without the id: any subsequence of `xs` whose ids all differ from `id` and
   that is as long as the result of deleting equals it.
   */
  lemma {:induction false} RemoveIsUniqueFilter(zs: seq<Belanja>, xs: seq<Belanja>, id: int)
    requires IsSubseq(zs, xs)
    requires forall i :: 0 <= i < |zs| ==> zs[i].id != id
    requires |zs| == |xs| - CountId(xs, id)
    ensures zs == RemoveById(xs, id)
    decreases |xs|
  {
    if zs == [] {
      assert |RemoveById(xs, id)| == 0;
    } else if xs != [] {
      if zs[0] == xs[0] && IsSubseq(zs[1..], xs[1..]) {
        RemoveIsUniqueFilter(zs[1..], xs[1..], id);
      } else {
        KeptSubseqBound(zs, xs[1..], id);
        RemoveIsUniqueFilter(zs, xs[1..], id);
      }
    }
  }

  /** Deleting an id that no item carries leaves the list as it was. */
  lemma {:induction false} RemoveAbsent(xs: seq<Belanja>, id: int)
    requires forall i :: 0 <= i < |xs| ==> xs[i].id != id
    ensures RemoveById(xs, id) == xs
    decreases |xs|
  {
    if xs != [] {
      RemoveAbsent(xs[1..], id);
      assert xs == [xs[0]] + xs[1..];
    }
  }

  /** Deleting the same id twice is deleting it once. */
  lemma RemoveIdempotent(xs: seq<Belanja>, id: int)
    ensures RemoveById(RemoveById(xs, id), id) == RemoveById(xs, id)
  {
    var ys := RemoveById(xs, id);
    forall i | 0 <= i < |ys|
      ensures ys[i].id != id
    {
      assert ys[i] in ys;
    }
    RemoveAbsent(ys, id);
  }

  /**
   Writing back the fields an item already has changes nothing, provided
   every item sharing its id is that same item.
   */
  lemma UpdateWithOwnFields(xs: seq<Belanja>, r: Belanja)
    requires forall i :: 0 <= i < |xs| && xs[i].id == r.id ==> xs[i] == r
    ensures UpdateById(xs, r.id, r.title, r.category, r.harga) == xs
  {
    var ys := UpdateById(xs, r.id, r.title, r.category, r.harga);
    forall i | 0 <= i < |xs|
      ensures ys[i] == xs[i]
    {
      if xs[i].id == r.id {
        assert ys[i] == Belanja(r.id, r.title, r.category, r.harga);
      }
    }
  }

  /** Saving the same fields twice is saving them once. */
  lemma UpdateIdempotent(xs: seq<Belanja>, id: int, title: string, category: string, harga: Num)
    ensures var ys := UpdateById(xs, id, title, category, harga);
            UpdateById(ys, id, title, category, harga) == ys
  {
    var ys := UpdateById(xs, id, title, category, harga);
    var zs := UpdateById(ys, id, title, category, harga);
    forall i | 0 <= i < |ys|
      ensures zs[i] == ys[i]
    {
      if ys[i].id == id {
        assert zs[i] == Belanja(id, title, category, harga);
        assert ys[i] == Belanja(id, title, category, harga);
      }
    }
  }
}
