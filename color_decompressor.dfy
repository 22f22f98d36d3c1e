/** The colour-scheme expansion of the Lua helpers `decompress_meshes` and
    `decompress_colors` (src/main.ts): for each colour, every selector writes
    the colour into Lua slot `n + 1` of a fresh table. */
module ColorDecompressor {
  import opened MeshDescription

  /** Selector `sel` writes Lua slot `slot`; `for i = first, last` runs zero
      times when `first > last`. */
  predicate Writes(sel: Selector, slot: int)
  {
    match sel
    case Single(n) => slot == n + 1
    case Span(first, last) => first + 1 <= slot <= last + 1
    case Ignored => false
  }

  /** Some selector of `group` writes `slot`. */
  predicate GroupWrites(group: seq<Selector>, slot: int)
  {
    exists j :: 0 <= j < |group| && Writes(group[j], slot)
  }

  /** `table` is a possible result of expanding `scheme`: exactly the slots
      some colour's selectors name are present, each holding one of the
      colours that names it. */
  ghost predicate DecodesTo(scheme: Scheme, table: map<int, int>)
  {
    && (forall slot :: slot in table <==> exists c :: c in scheme && GroupWrites(scheme[c], slot))
    && (forall slot :: slot in table ==> table[slot] in scheme && GroupWrites(scheme[table[slot]], slot))
  }

  /** No slot is named by two different colours. */
  ghost predicate Disjoint(scheme: Scheme)
  {
    forall c, d, slot :: c in scheme && d in scheme && GroupWrites(scheme[c], slot) && GroupWrites(scheme[d], slot) ==> c == d
  }

  /** `for i = first, last do t[i+1] = color end`, as a function of the
      table before the loop. */
  function PaintSpan(table: map<int, int>, first: int, last: int, color: int): map<int, int>
    decreases last - first
  {
    if first > last then table else PaintSpan(table, first, last - 1, color)[last + 1 := color]
  }

  function PaintSelector(table: map<int, int>, sel: Selector, color: int): map<int, int>
  {
    match sel
    case Single(n) => table[n + 1 := color]
    case Span(first, last) => PaintSpan(table, first, last, color)
    case Ignored => table
  }

  /** The `ipairs(group)` loop for one colour. */
  function Paint(table: map<int, int>, group: seq<Selector>, color: int): map<int, int>
  {
    if group == [] then table
    else PaintSelector(Paint(table, group[..|group| - 1], color), group[|group| - 1], color)
  }

  /** `order` lists every colour of the scheme once: an order `pairs` may
      visit them in. */
  predicate Enumerates(order: seq<int>, colors: set<int>)
  {
    && (forall k :: 0 <= k < |order| ==> order[k] in colors)
    && (forall c :: c in colors ==> c in order)
    && (forall k, l :: 0 <= k < l < |order| ==> order[k] != order[l])
  }

  /** The whole `pairs(colors)` loop, visiting the colours in `order`,
      starting from the empty table. */
  function Expand(scheme: Scheme, order: seq<int>): map<int, int>
    requires forall k :: 0 <= k < |order| ==> order[k] in scheme
  {
    if order == [] then map[]
    else
      var c := order[|order| - 1];
      Paint(Expand(scheme, order[..|order| - 1]), scheme[c], c)
  }

  /** A span writes exactly its slots and leaves the others alone. */
  lemma {:induction false} PaintSpanEffect(table: map<int, int>, first: int, last: int, color: int, slot: int)
    ensures var t := PaintSpan(table, first, last, color);
      && (slot in t <==> slot in table || first + 1 <= slot <= last + 1)
      && (first + 1 <= slot <= last + 1 ==> t[slot] == color)
      && (slot in table && !(first + 1 <= slot <= last + 1) ==> t[slot] == table[slot])
    decreases last - first
  {
    if first <= last {
      PaintSpanEffect(table, first, last - 1, color, slot);
    }
  }

  /** One colour's selector list writes exactly the slots it names, with
      that colour, and leaves every other slot alone. */
  lemma {:induction false} PaintEffect(table: map<int, int>, group: seq<Selector>, color: int, slot: int)
    ensures var t := Paint(table, group, color);
      && (slot in t <==> slot in table || GroupWrites(group, slot))
      && (GroupWrites(group, slot) ==> t[slot] == color)
      && (slot in table && !GroupWrites(group, slot) ==> t[slot] == table[slot])
  {
    if group != [] {
      var init, sel := group[..|group| - 1], group[|group| - 1];
      PaintEffect(table, init, color, slot);
      assert GroupWrites(group, slot) <==> GroupWrites(init, slot) || Writes(sel, slot) by {
        if GroupWrites(group, slot) && !Writes(sel, slot) {
          var j :| 0 <= j < |group| && Writes(group[j], slot);
          assert init[j] == group[j];
        }
        if GroupWrites(init, slot) {
          var j :| 0 <= j < |init| && Writes(init[j], slot);
          assert group[j] == init[j];
        }
      }
      match sel
      case Span(first, last) =>
        PaintSpanEffect(Paint(table, init, color), first, last, color, slot);
      case Single(n) =>
      case Ignored =>
    }
  }

  /** Expanding in any `pairs` order gives a table `DecodesTo` admits. */
  lemma {:induction false} ExpandDecodes(scheme: Scheme, order: seq<int>, slot: int)
    requires forall k :: 0 <= k < |order| ==> order[k] in scheme
    ensures var t := Expand(scheme, order);
      && (slot in t <==> exists k :: 0 <= k < |order| && GroupWrites(scheme[order[k]], slot))
      && (slot in t ==> t[slot] in scheme && GroupWrites(scheme[t[slot]], slot))
  {
    if order != [] {
      var init, c := order[..|order| - 1], order[|order| - 1];
      ExpandDecodes(scheme, init, slot);
      PaintEffect(Expand(scheme, init), scheme[c], c, slot);
      if exists k :: 0 <= k < |order| && GroupWrites(scheme[order[k]], slot) {
        var k :| 0 <= k < |order| && GroupWrites(scheme[order[k]], slot);
        if k < |init| {
          assert init[k] == order[k];
        }
      }
      if exists k :: 0 <= k < |init| && GroupWrites(scheme[init[k]], slot) {
        var k :| 0 <= k < |init| && GroupWrites(scheme[init[k]], slot);
        assert order[k] == init[k];
      }
    }
  }

  /** `mesh.colors = {}` followed by the `pairs` / `ipairs` / numeric `for`
      nest. The colour taken next stands for `pairs`' unspecified order;
      `order` records the order taken. */
  method DecompressScheme(scheme: Scheme) returns (table: map<int, int>, ghost order: seq<int>)
    ensures Enumerates(order, scheme.Keys) && table == Expand(scheme, order)
    ensures DecodesTo(scheme, table)
  {
    table := map[];
    order := [];
    var pending := scheme.Keys;
    while pending != {}
      invariant pending <= scheme.Keys
      invariant Enumerates(order, scheme.Keys - pending)
      invariant table == Expand(scheme, order)
      decreases pending
    {
      assert (forall x :: x !in pending) ==> pending == {};
      var color :| color in pending;
      var group := scheme[color];
      ghost var before := table;
      for j := 0 to |group|
        invariant table == Paint(before, group[..j], color)
      {
        assert group[..j + 1][..j] == group[..j];
        match group[j]
        case Span(first, last) =>
          var i := first;
          while i <= last
            invariant first <= i && (i <= last + 1 || i == first)
            invariant table == PaintSpan(Paint(before, group[..j], color), first, i - 1, color)
          {
            table := table[i + 1 := color];
            i := i + 1;
          }
        case Single(n) =>
          table := table[n + 1 := color];
        case Ignored =>
      }
      assert group[..|group|] == group;
      assert (order + [color])[..|order|] == order;
      order := order + [color];
      pending := pending - {color};
    }
    assert scheme.Keys - pending == scheme.Keys;
    ExpansionDecodes(scheme, order);
  }

  /** `table` is what the `pairs` loop leaves for one of the orders in which
      `pairs` may visit the scheme's colours. */
  ghost predicate ExpandsTo(scheme: Scheme, table: map<int, int>)
  {
    exists order :: Enumerates(order, scheme.Keys) && table == Expand(scheme, order)
  }

  /** An expansion over all the scheme's colours is one `DecodesTo` admits. */
  lemma ExpansionDecodes(scheme: Scheme, order: seq<int>)
    requires Enumerates(order, scheme.Keys)
    ensures ExpandsTo(scheme, Expand(scheme, order))
    ensures DecodesTo(scheme, Expand(scheme, order))
  {
    var table := Expand(scheme, order);
    forall slot ensures slot in table ==> table[slot] in scheme && GroupWrites(scheme[table[slot]], slot)
      ensures slot in table <==> exists c :: c in scheme && GroupWrites(scheme[c], slot)
    {
      ExpandDecodes(scheme, order, slot);
      if exists c :: c in scheme && GroupWrites(scheme[c], slot) {
        var c :| c in scheme && GroupWrites(scheme[c], slot);
        var k :| 0 <= k < |order| && order[k] == c;
      }
    }
  }

  /** Whichever order `pairs` took, its table is one `DecodesTo` admits. */
  lemma ExpandsToDecodes(scheme: Scheme, table: map<int, int>)
    requires ExpandsTo(scheme, table)
    ensures DecodesTo(scheme, table)
  {
    var order :| Enumerates(order, scheme.Keys) && table == Expand(scheme, order);
    ExpansionDecodes(scheme, order);
  }

  /** With disjoint selectors the `pairs` order does not matter: every slot
      a colour names holds that colour. */
  lemma DecodedSlot(scheme: Scheme, table: map<int, int>, c: int, slot: int)
    requires Disjoint(scheme) && DecodesTo(scheme, table)
    requires c in scheme && GroupWrites(scheme[c], slot)
    ensures slot in table && table[slot] == c
  {
    assert slot in table;
    var d := table[slot];
    assert d in scheme && GroupWrites(scheme[d], slot);
  }

  /** With disjoint selectors the expanded table is unique. */
  lemma DecodingUnique(scheme: Scheme, t1: map<int, int>, t2: map<int, int>)
    requires Disjoint(scheme) && DecodesTo(scheme, t1) && DecodesTo(scheme, t2)
    ensures t1 == t2
  {
    forall slot
      ensures slot in t1 <==> slot in t2
    {
      assert slot in t1 <==> exists c :: c in scheme && GroupWrites(scheme[c], slot);
    }
    assert t1.Keys == t2.Keys;
    forall slot | slot in t1
      ensures t1[slot] == t2[slot]
    {
      DecodedSlot(scheme, t2, t1[slot], slot);
    }
  }

  /** Colour `c` on the range [2, 5], the empty range [6, 4] and the
      vertices 7 and 9 fills Lua slots 3 to 6, 8 and 10, and nothing else. */
  lemma DecodeExample(c: int, table: map<int, int>)
    requires DecodesTo(map[c := [Span(2, 5), Span(6, 4), Single(7), Single(9)]], table)
    ensures table == map[3 := c, 4 := c, 5 := c, 6 := c, 8 := c, 10 := c]
  {
    var group := [Span(2, 5), Span(6, 4), Single(7), Single(9)];
    var scheme := map[c := group];
    var expected := map[3 := c, 4 := c, 5 := c, 6 := c, 8 := c, 10 := c];
    forall slot
      ensures slot in table <==> slot in expected
      ensures slot in table ==> table[slot] == c
    {
      assert GroupWrites(group, slot) <==> slot in expected by {
        if slot in expected {
          var j := if 3 <= slot <= 6 then 0 else if slot == 8 then 2 else 3;
          assert Writes(group[j], slot);
        }
      }
      if GroupWrites(group, slot) {
        assert c in scheme && GroupWrites(scheme[c], slot);
      }
      if exists d :: d in scheme && GroupWrites(scheme[d], slot) {
        var d :| d in scheme && GroupWrites(scheme[d], slot);
        assert d == c;
      }
    }
  }
}
