/**
 * `FieldMap` and `message_order`: fields kept as a sorted vector, looked up by scanning when there
 * are fewer than sixteen and by binary search otherwise, behaving as a map from tag to value.
 */
module FieldVector {

  type Tag = t: int | t > 0 witness 1

  const BEGIN_STRING: Tag := 8
  const BODY_LENGTH: Tag := 9
  const CHECK_SUM: Tag := 10
  const MSG_TYPE: Tag := 35
  const SIGNATURE: Tag := 89
  const SIGNATURE_LENGTH: Tag := 93

  // ----- comparators -----

  // positions[tag] is the tag's place in the group, or zero; tags above `largest` have none.
  datatype Order = Header | Trailer | Normal | Group(positions: seq<int>, largest: int)

  function HeaderPosition(x: Tag): int {
    if x == BEGIN_STRING then 1 else if x == BODY_LENGTH then 2 else if x == MSG_TYPE then 3 else 0
  }

  function TrailerPosition(x: Tag): int {
    if x == SIGNATURE_LENGTH then 1 else if x == SIGNATURE then 2 else 0
  }

  predicate ByPosition(px: int, py: int, x: Tag, y: Tag) {
    if px != 0 && py != 0 then px < py
    else if px != 0 then true
    else if py != 0 then false
    else x < y
  }

  // The table covers every tag up to `largest`, and no two tags share a nonzero place.
  ghost predicate Sound(o: Order) {
    o.Group? ==>
      && o.largest < |o.positions|
      && (forall x :: 0 <= x < |o.positions| ==> o.positions[x] >= 0)
      && forall x, y :: 0 <= x < y < |o.positions| && o.positions[x] == o.positions[y] ==> o.positions[x] == 0
  }

  predicate Less(o: Order, x: Tag, y: Tag)
    requires o.Group? ==> o.largest < |o.positions|
  {
    match o
    case Header => ByPosition(HeaderPosition(x), HeaderPosition(y), x, y)
    case Trailer =>
      if x == CHECK_SUM then false
      else if y == CHECK_SUM then true
      else ByPosition(TrailerPosition(x), TrailerPosition(y), x, y)
    case Group(positions, largest) =>
      if x <= largest && y <= largest then
        var ix, iy := positions[x], positions[y];
        if ix == 0 && iy == 0 then x < y
        else if ix == 0 then false
        else if iy == 0 then true
        else ix < iy
      else if x <= largest then true
      else if y <= largest then false
      else x < y
    case Normal => x < y
  }

  // A tag's place as a pair: band first, then rank within the band.
  ghost function Key(o: Order, x: Tag): (int, int)
    requires o.Group? ==> o.largest < |o.positions|
  {
    match o
    case Header => if HeaderPosition(x) != 0 then (0, HeaderPosition(x)) else (1, x)
    case Trailer =>
      if x == CHECK_SUM then (2, 0) else if TrailerPosition(x) != 0 then (0, TrailerPosition(x)) else (1, x)
    case Group(positions, largest) =>
      if x > largest then (2, x) else if positions[x] != 0 then (0, positions[x]) else (1, x)
    case Normal => (0, x)
  }

  ghost predicate Before(a: (int, int), b: (int, int)) { a.0 < b.0 || (a.0 == b.0 && a.1 < b.1) }

  // Every comparator is the lexicographic order of an injective key.
  lemma LessIsKeyOrder(o: Order, x: Tag, y: Tag)
    requires Sound(o)
    ensures Less(o, x, y) <==> Before(Key(o, x), Key(o, y))
    ensures Key(o, x) == Key(o, y) ==> x == y
  {
  }

  lemma StrictTotalOrder(o: Order, x: Tag, y: Tag, z: Tag)
    requires Sound(o)
    ensures !Less(o, x, x)
    ensures Less(o, x, y) ==> !Less(o, y, x)
    ensures Less(o, x, y) && Less(o, y, z) ==> Less(o, x, z)
    ensures x != y ==> Less(o, x, y) || Less(o, y, x)
  {
    LessIsKeyOrder(o, x, x);
    LessIsKeyOrder(o, x, y);
    LessIsKeyOrder(o, y, x);
    LessIsKeyOrder(o, y, z);
    LessIsKeyOrder(o, x, z);
    hide Less, Key, Sound;
  }

  // FIX 4.4: a message starts with tags 8, 9 and 35 in this order, a trailer starts with 93 and 89
  // and ends with 10, and all other tags follow their numbers.
  lemma StandardOrder(x: Tag, y: Tag)
    ensures Less(Header, 8, 9) && Less(Header, 9, 35)
    ensures x !in {8, 9, 35} ==> Less(Header, 35, x)
    ensures x !in {8, 9, 35} && y !in {8, 9, 35} ==> (Less(Header, x, y) <==> x < y)
    ensures Less(Trailer, 93, 89) && Less(Trailer, 89, 10)
    ensures x !in {93, 89, 10} ==> Less(Trailer, 89, x) && Less(Trailer, x, 10)
    ensures x !in {93, 89, 10} && y !in {93, 89, 10} ==> (Less(Trailer, x, y) <==> x < y)
    ensures Less(Normal, x, y) <==> x < y
  {
  }

  // ----- building a group order -----

  // `setOrder`: the table of places for a list of tags, each at its index plus one.
  method SetOrder(order: seq<Tag>) returns (o: Order)
    ensures o.Group? && Sound(o)
    ensures forall i :: 0 <= i < |order| ==> order[i] <= o.largest && o.positions[order[i]] != 0
    ensures forall x :: 0 <= x < |o.positions| && o.positions[x] != 0 ==>
      o.positions[x] <= |order| && order[o.positions[x] - 1] == x
  {
    if |order| < 1 {
      return Group([0], 0);
    }
    var largest: int := order[0];
    for i := 1 to |order|
      invariant largest > 0 && forall j :: 0 <= j < i ==> order[j] <= largest
    {
      var field := order[i];
      largest := if largest > field then largest else field;
    }
    var table := new int[largest + 1](_ => 0);
    for i := 0 to |order|
      invariant forall x :: 0 <= x < table.Length ==> 0 <= table[x] <= i
      invariant forall x :: 0 <= x < table.Length && table[x] != 0 ==> order[table[x] - 1] == x
      invariant forall j :: 0 <= j < i ==> table[order[j]] != 0
    {
      table[order[i]] := i + 1;
    }
    o := Group(table[..], largest);
  }

  // Listed tags come in the listed order and before all unlisted ones.
  lemma GroupOrderFollowsList(o: Order, order: seq<Tag>, i: nat, j: nat, y: Tag)
    requires o.Group? && Sound(o) && i < j < |order|
    requires forall k :: 0 <= k < |order| ==> order[k] <= o.largest && o.positions[order[k]] != 0
    requires forall x :: 0 <= x < |o.positions| && o.positions[x] != 0 ==>
      o.positions[x] <= |order| && order[o.positions[x] - 1] == x
    requires forall k, l :: 0 <= k < l < |order| ==> order[k] != order[l]
    ensures Less(o, order[i], order[j])
    ensures y !in order ==> Less(o, order[i], y)
  {
    assert order[o.positions[order[i]] - 1] == order[i] && order[o.positions[order[j]] - 1] == order[j];
    if y !in order && y <= o.largest {
      assert o.positions[y] == 0;
    }
  }

  // ----- the vector -----

  datatype Field = Field(tag: Tag, value: string)

  ghost predicate Sorted(o: Order, fields: seq<Field>)
    requires Sound(o)
  {
    forall i, j :: 0 <= i < j < |fields| ==> Less(o, fields[i].tag, fields[j].tag)
  }

  // Sorted but for repeated tags, which stand side by side.
  ghost predicate Ordered(o: Order, fields: seq<Field>)
    requires Sound(o)
  {
    forall i, j :: 0 <= i < j < |fields| ==> !Less(o, fields[j].tag, fields[i].tag)
  }

  // The vector holds exactly the map's entries.
  ghost predicate Represents(fields: seq<Field>, m: map<Tag, string>) {
    && (forall i :: 0 <= i < |fields| ==> fields[i].tag in m && m[fields[i].tag] == fields[i].value)
    && forall t :: t in m ==> exists i :: 0 <= i < |fields| && fields[i].tag == t
  }

  class FieldMap {
    const order: Order
    var fields: seq<Field>
    ghost var contents: map<Tag, string>

    // What the searches need; `AddField` may repeat tags.
    ghost predicate Searchable()
      reads this
    {
      Sound(order) && Ordered(order, fields)
    }

    // The vector is a map.
    ghost predicate Valid()
      reads this
    {
      Searchable() && Sorted(order, fields) && Represents(fields, contents)
    }

    constructor (order: Order)
      requires Sound(order)
      ensures Valid() && this.order == order && fields == [] && contents == map[]
    {
      this.order := order;
      fields, contents := [], map[];
    }

    // `lower_bound` (strict) and `upper_bound`: the first position not before / after the tag.
    method LowerBound(tag: Tag) returns (first: nat)
      requires Searchable()
      ensures first <= |fields|
      ensures forall i :: 0 <= i < first ==> Less(order, fields[i].tag, tag)
      ensures forall i :: first <= i < |fields| ==> !Less(order, fields[i].tag, tag)
    {
      first := 0;
      var len := |fields|;
      while len > 0
        invariant 0 <= first && 0 <= len && first + len <= |fields|
        invariant forall i :: 0 <= i < first ==> Less(order, fields[i].tag, tag)
        invariant forall i :: first + len <= i < |fields| ==> !Less(order, fields[i].tag, tag)
      {
        var half := len / 2;
        var mid := first + half;
        OrderedAround(order, fields, tag, mid);
        if Less(order, fields[mid].tag, tag) {
          first, len := mid + 1, len - half - 1;
        } else {
          len := half;
        }
      }
    }

    method UpperBound(tag: Tag) returns (first: nat)
      requires Searchable()
      ensures first <= |fields|
      ensures forall i :: 0 <= i < first ==> !Less(order, tag, fields[i].tag)
      ensures forall i :: first <= i < |fields| ==> Less(order, tag, fields[i].tag)
    {
      first := 0;
      var len := |fields|;
      while len > 0
        invariant 0 <= first && 0 <= len && first + len <= |fields|
        invariant forall i :: 0 <= i < first ==> !Less(order, tag, fields[i].tag)
        invariant forall i :: first + len <= i < |fields| ==> Less(order, tag, fields[i].tag)
      {
        var half := len / 2;
        var mid := first + half;
        OrderedAround(order, fields, tag, mid);
        if !Less(order, tag, fields[mid].tag) {
          first, len := mid + 1, len - half - 1;
        } else {
          len := half;
        }
      }
    }

    // The index of the first field with the tag, or the size of the vector when there is none.
    method FindTag(tag: Tag) returns (pos: nat)
      requires Searchable()
      ensures pos <= |fields| && (pos < |fields| ==> fields[pos].tag == tag)
      ensures forall i :: 0 <= i < pos ==> fields[i].tag != tag
      ensures Valid() ==> (pos < |fields| <==> tag in contents)
      ensures Valid() && pos < |fields| ==> fields[pos].value == contents[tag]
    {
      hide Less, Sound;
      if |fields| < 16 {
        pos := 0;
        while pos < |fields| && fields[pos].tag != tag
          invariant 0 <= pos <= |fields|
          invariant forall i :: 0 <= i < pos ==> fields[i].tag != tag
        {
          pos := pos + 1;
        }
        return;
      }
      pos := LowerBound(tag);
      StrictTotalOrder(order, tag, tag, tag);
      if pos < |fields| && fields[pos].tag == tag {
        return;
      }
      NotBetween(order, fields, tag, pos);
      pos := |fields|;
    }

    // Where a new field goes: behind everything not after it.
    method FindPositionFor(tag: Tag) returns (pos: nat)
      requires Searchable()
      ensures pos <= |fields|
      ensures forall i :: 0 <= i < pos ==> !Less(order, tag, fields[i].tag)
      ensures forall i :: pos <= i < |fields| ==> Less(order, tag, fields[i].tag)
    {
      if |fields| == 0 {
        return 0;
      }
      var last := |fields| - 1;
      if Less(order, fields[last].tag, tag) || fields[last].tag == tag {
        LastBefore(order, fields, tag);
        return |fields|;
      }
      pos := UpperBound(tag);
    }

    // `addField`: insert without looking for the tag, behind any field that has it. A new tag
    // extends the map; a repeated one leaves a vector that is still in order, in which searches
    // find the field that was there first.
    method AddField(field: Field)
      requires Searchable()
      modifies this
      ensures Searchable()
      ensures exists p :: 0 <= p <= |old(fields)| && InsertedAt(order, old(fields), field, p, fields)
      ensures old(Valid()) && field.tag !in old(contents) ==> Valid() && contents == old(contents)[field.tag := field.value]
    {
      var pos := FindPositionFor(field.tag);
      ghost var before := fields;
      InsertedOrdered(order, fields, field, pos);
      if Valid() && field.tag !in contents {
        Inserted(order, fields, contents, field, pos);
      }
      hide Less, Sound, Sorted, Represents, Ordered;
      fields := if pos == |fields| then fields + [field] else fields[..pos] + [field] + fields[pos..];
      contents := contents[field.tag := field.value];
      assert fields == before[..pos] + [field] + before[pos..];
      assert InsertedAt(order, before, field, pos, fields);
    }

    // `setField` with overwriting: the first field with the tag gets the value, or a new field is
    // put in its place. As a map, the vector gains or changes exactly this tag.
    method SetField(field: Field)
      requires Searchable()
      modifies this
      ensures Searchable()
      ensures HasTag(old(fields), field.tag) ==>
        exists p :: FirstAt(old(fields), field.tag, p) && fields == old(fields)[p := field]
      ensures !HasTag(old(fields), field.tag) ==>
        exists p :: 0 <= p <= |old(fields)| && InsertedAt(order, old(fields), field, p, fields)
      ensures old(Valid()) ==> Valid() && contents == old(contents)[field.tag := field.value]
    {
      var pos := FindTag(field.tag);
      if pos == |fields| {
        AddField(field);
      } else {
        assert FirstAt(fields, field.tag, pos);
        OverwrittenOrdered(order, fields, field, pos);
        if Valid() {
          Overwritten(order, fields, contents, field, pos);
        }
        hide Less, Sound, Sorted, Represents, Ordered;
        fields := fields[pos := Field(fields[pos].tag, field.value)];
        contents := contents[field.tag := field.value];
      }
    }

    // `getFieldRef`: the first field with the tag, or the not-found exception.
    method GetField(tag: Tag) returns (found: bool, value: string)
      requires Searchable()
      ensures found == HasTag(fields, tag)
      ensures found ==> exists p :: FirstAt(fields, tag, p) && value == fields[p].value
      ensures Valid() ==> found == (tag in contents)
      ensures Valid() && found ==> value == contents[tag]
    {
      var pos := FindTag(tag);
      if pos == |fields| {
        return false, "";
      }
      assert FirstAt(fields, tag, pos);
      return true, fields[pos].value;
    }
  }

  ghost predicate HasTag(fields: seq<Field>, tag: Tag) { exists i :: 0 <= i < |fields| && fields[i].tag == tag }

  ghost predicate FirstAt(fields: seq<Field>, tag: Tag, p: int) {
    0 <= p < |fields| && fields[p].tag == tag && forall i :: 0 <= i < p ==> fields[i].tag != tag
  }

  // ----- facts about sorted vectors -----

  lemma OrderedAround(o: Order, fields: seq<Field>, tag: Tag, mid: nat)
    requires Sound(o) && Ordered(o, fields) && mid < |fields|
    ensures Less(o, fields[mid].tag, tag) ==> forall i :: 0 <= i <= mid ==> Less(o, fields[i].tag, tag)
    ensures !Less(o, fields[mid].tag, tag) ==> forall i :: mid <= i < |fields| ==> !Less(o, fields[i].tag, tag)
    ensures Less(o, tag, fields[mid].tag) ==> forall i :: mid <= i < |fields| ==> Less(o, tag, fields[i].tag)
    ensures !Less(o, tag, fields[mid].tag) ==> forall i :: 0 <= i <= mid ==> !Less(o, tag, fields[i].tag)
  {
    hide Less;
    forall i | 0 <= i < |fields|
      ensures i <= mid && Less(o, fields[mid].tag, tag) ==> Less(o, fields[i].tag, tag)
      ensures mid <= i && !Less(o, fields[mid].tag, tag) ==> !Less(o, fields[i].tag, tag)
      ensures mid <= i && Less(o, tag, fields[mid].tag) ==> Less(o, tag, fields[i].tag)
      ensures i <= mid && !Less(o, tag, fields[mid].tag) ==> !Less(o, tag, fields[i].tag)
    {
      StrictTotalOrder(o, fields[i].tag, fields[mid].tag, tag);
      StrictTotalOrder(o, fields[mid].tag, fields[i].tag, tag);
      StrictTotalOrder(o, tag, fields[mid].tag, fields[i].tag);
      StrictTotalOrder(o, tag, fields[i].tag, fields[mid].tag);
    }
  }

  lemma NotBetween(o: Order, fields: seq<Field>, tag: Tag, pos: nat)
    requires Sound(o) && Ordered(o, fields) && pos <= |fields|
    requires forall i :: 0 <= i < pos ==> Less(o, fields[i].tag, tag)
    requires pos < |fields| ==> !Less(o, fields[pos].tag, tag) && fields[pos].tag != tag
    ensures forall i :: 0 <= i < |fields| ==> fields[i].tag != tag
  {
    hide Less;
    StrictTotalOrder(o, tag, tag, tag);
    if pos < |fields| {
      StrictTotalOrder(o, tag, fields[pos].tag, tag);
      OrderedAround(o, fields, tag, pos);
    }
  }

  lemma LastBefore(o: Order, fields: seq<Field>, tag: Tag)
    requires Sound(o) && Ordered(o, fields) && fields != []
    requires Less(o, fields[|fields| - 1].tag, tag) || fields[|fields| - 1].tag == tag
    ensures forall i :: 0 <= i < |fields| ==> !Less(o, tag, fields[i].tag)
  {
    hide Less;
    var last := |fields| - 1;
    StrictTotalOrder(o, fields[last].tag, tag, tag);
    OrderedAround(o, fields, tag, last);
  }

  // `after` is `before` with the field put in at p, between the fields not after it and the rest.
  ghost predicate InsertedAt(o: Order, before: seq<Field>, f: Field, p: int, after: seq<Field>)
    requires Sound(o) && 0 <= p <= |before|
  {
    && after == before[..p] + [f] + before[p..]
    && (forall i :: 0 <= i < p ==> !Less(o, f.tag, before[i].tag))
    && forall i :: p <= i < |before| ==> Less(o, f.tag, before[i].tag)
  }

  lemma InsertedOrdered(o: Order, fields: seq<Field>, f: Field, pos: nat)
    requires Sound(o) && Ordered(o, fields) && pos <= |fields|
    requires forall i :: 0 <= i < pos ==> !Less(o, f.tag, fields[i].tag)
    requires forall i :: pos <= i < |fields| ==> Less(o, f.tag, fields[i].tag)
    ensures Ordered(o, fields[..pos] + [f] + fields[pos..])
  {
    hide Less;
    var r := fields[..pos] + [f] + fields[pos..];
    forall i, j | 0 <= i < j < |r|
      ensures !Less(o, r[j].tag, r[i].tag)
    {
      assert r[i] == if i < pos then fields[i] else if i == pos then f else fields[i - 1];
      assert r[j] == if j < pos then fields[j] else if j == pos then f else fields[j - 1];
      StrictTotalOrder(o, r[i].tag, r[j].tag, r[i].tag);
    }
  }

  lemma Inserted(o: Order, fields: seq<Field>, m: map<Tag, string>, f: Field, pos: nat)
    requires Sound(o) && Sorted(o, fields) && Represents(fields, m) && f.tag !in m && pos <= |fields|
    requires forall i :: 0 <= i < pos ==> !Less(o, f.tag, fields[i].tag)
    requires forall i :: pos <= i < |fields| ==> Less(o, f.tag, fields[i].tag)
    ensures var r := fields[..pos] + [f] + fields[pos..]; Sorted(o, r) && Represents(r, m[f.tag := f.value])
  {
    hide Less;
    forall i | 0 <= i < pos
      ensures Less(o, fields[i].tag, f.tag)
    {
      StrictTotalOrder(o, fields[i].tag, f.tag, f.tag);
    }
    InsertedSorted(o, fields, f, pos);
    InsertedRepresents(fields, m, f, pos);
    hide Sorted, Represents;
  }

  lemma InsertedSorted(o: Order, fields: seq<Field>, f: Field, pos: nat)
    requires Sound(o) && Sorted(o, fields) && pos <= |fields|
    requires forall i :: 0 <= i < pos ==> Less(o, fields[i].tag, f.tag)
    requires forall i :: pos <= i < |fields| ==> Less(o, f.tag, fields[i].tag)
    ensures Sorted(o, fields[..pos] + [f] + fields[pos..])
  {
    hide Less;
    var r := fields[..pos] + [f] + fields[pos..];
    forall i, j | 0 <= i < j < |r|
      ensures Less(o, r[i].tag, r[j].tag)
    {
      assert r[i] == if i < pos then fields[i] else if i == pos then f else fields[i - 1];
      assert r[j] == if j < pos then fields[j] else if j == pos then f else fields[j - 1];
    }
  }

  lemma InsertedRepresents(fields: seq<Field>, m: map<Tag, string>, f: Field, pos: nat)
    requires Represents(fields, m) && f.tag !in m && pos <= |fields|
    ensures Represents(fields[..pos] + [f] + fields[pos..], m[f.tag := f.value])
  {
    var r, m' := fields[..pos] + [f] + fields[pos..], m[f.tag := f.value];
    forall t | t in m'
      ensures exists i :: 0 <= i < |r| && r[i].tag == t
    {
      if t == f.tag {
        assert r[pos].tag == t;
      } else {
        var i :| 0 <= i < |fields| && fields[i].tag == t;
        assert r[if i < pos then i else i + 1].tag == t;
      }
    }
  }

  lemma OverwrittenOrdered(o: Order, fields: seq<Field>, f: Field, pos: nat)
    requires Sound(o) && Ordered(o, fields) && pos < |fields| && fields[pos].tag == f.tag
    ensures Ordered(o, fields[pos := f])
  {
    hide Less;
    assert forall i :: 0 <= i < |fields| ==> fields[pos := f][i].tag == fields[i].tag;
  }

  lemma Overwritten(o: Order, fields: seq<Field>, m: map<Tag, string>, f: Field, pos: nat)
    requires Sound(o) && Sorted(o, fields) && Represents(fields, m) && pos < |fields| && fields[pos].tag == f.tag
    ensures var r := fields[pos := Field(fields[pos].tag, f.value)]; Sorted(o, r) && Represents(r, m[f.tag := f.value])
  {
    hide Less;
    var r := fields[pos := Field(fields[pos].tag, f.value)];
    assert forall i :: 0 <= i < |fields| ==> r[i].tag == fields[i].tag;
    forall i | 0 <= i < |fields| && i != pos
      ensures fields[i].tag != f.tag
    {
      StrictTotalOrder(o, f.tag, f.tag, f.tag);
    }
  }

  // ----- the vector is determined by the map -----

  lemma Tail(o: Order, fields: seq<Field>, m: map<Tag, string>)
    requires Sound(o) && Sorted(o, fields) && Represents(fields, m) && fields != []
    ensures Sorted(o, fields[1..]) && Represents(fields[1..], m - {fields[0].tag})
  {
    hide Less;
    var rest, m' := fields[1..], m - {fields[0].tag};
    assert forall i :: 0 <= i < |rest| ==> rest[i] == fields[i + 1];
    forall i | 0 < i < |fields|
      ensures fields[i].tag != fields[0].tag
    {
      assert Less(o, fields[0].tag, fields[i].tag);
      StrictTotalOrder(o, fields[0].tag, fields[0].tag, fields[0].tag);
    }
    forall t | t in m'
      ensures exists i :: 0 <= i < |rest| && rest[i].tag == t
    {
      var i :| 0 <= i < |fields| && fields[i].tag == t;
      assert rest[i - 1].tag == t;
    }
  }

  lemma SameHead(o: Order, a: seq<Field>, b: seq<Field>, m: map<Tag, string>)
    requires Sound(o) && Sorted(o, a) && Sorted(o, b) && Represents(a, m) && Represents(b, m) && a != [] && b != []
    ensures a[0] == b[0]
  {
    hide Less;
    var i :| 0 <= i < |a| && a[i].tag == b[0].tag;
    var j :| 0 <= j < |b| && b[j].tag == a[0].tag;
    StrictTotalOrder(o, a[0].tag, b[0].tag, a[0].tag);
  }

  lemma EmptyIff(fields: seq<Field>, m: map<Tag, string>)
    requires Represents(fields, m)
    ensures fields == [] <==> m == map[]
  {
    if fields == [] {
      assert m.Keys == {};
    } else {
      assert fields[0].tag in m;
    }
  }

  // Two sorted vectors with the same entries are the same vector: what goes on the wire depends
  // on the fields set, not on the order in which they were set.
  lemma {:induction false} VectorIsCanonical(o: Order, a: seq<Field>, b: seq<Field>, m: map<Tag, string>)
    requires Sound(o) && Sorted(o, a) && Sorted(o, b) && Represents(a, m) && Represents(b, m)
    ensures a == b
    decreases |a|
  {
    hide Less;
    EmptyIff(a, m);
    EmptyIff(b, m);
    if a != [] {
      SameHead(o, a, b, m);
      Tail(o, a, m);
      Tail(o, b, m);
      VectorIsCanonical(o, a[1..], b[1..], m - {a[0].tag});
      assert a == [a[0]] + a[1..] && b == [b[0]] + b[1..];
    }
  }
}
