/** The canonical bytes of a raw classifier recipe: injective, and decodable whatever follows them. */
module RecipeCodec {
  import opened Bytes
  import opened StateFrames
  import opened LatentState

  datatype Declaration = StandardScaler | TensorPca(nComponents: nat, randomState: nat) | ColumnTransformer
  datatype Schema = Schema(representation: bytes, dtype: bytes, identity: bytes, inputShape: seq<nat>)

  /** Source names and texts are kept as their UTF-8 bytes, weights as their binary64 bytes. */
  datatype Recipe = Recipe(
    nComponents: nat, maxIter: nat, sourceOrder: seq<bytes>,
    encoders: map<bytes, Declaration>, weights: map<bytes, bytes>)

  const NAME_LIMIT := 128
  const SEED_LIMIT := 0xFFFF_FFFF
  const DIMENSION_LIMIT := 0x7FFF_FFFF_FFFF_FFFF

  predicate Bounded(shape: seq<nat>) {
    forall i :: 0 <= i < |shape| ==> 0 < shape[i] <= DIMENSION_LIMIT
  }

  predicate GoodSchema(s: Schema) {
    && |s.representation| <= NAME_LIMIT && |s.dtype| <= NAME_LIMIT && |s.identity| <= TEXT_LIMIT
    && 0 < |s.inputShape| <= 7
    && Bounded(s.inputShape)
  }

  predicate GoodDeclaration(d: Declaration) {
    d.TensorPca? ==> 0 < d.nComponents <= INT_LIMIT && d.randomState <= SEED_LIMIT
  }

  /** What the recipe validator establishes before the recipe is printed. */
  predicate Validated(r: Recipe, schemas: map<bytes, Schema>) {
    && 0 < r.nComponents <= INT_LIMIT && 0 < r.maxIter <= INT_LIMIT
    && 1 <= |r.sourceOrder| <= 4
    && forall source <- r.sourceOrder ::
         && |source| <= NAME_LIMIT
         && source in schemas && GoodSchema(schemas[source])
         && source in r.encoders && GoodDeclaration(r.encoders[source])
         && source in r.weights && |r.weights[source]| == 8
  }

  // ---- Printing -----------------------------------------------------------------------

  function Kind(d: Declaration): nat {
    match d
    case StandardScaler => 1
    case TensorPca(_, _) => 2
    case ColumnTransformer => 3
  }

  function Flag(b: bool): nat { if b then 1 else 0 }

  function LongText(text: bytes, tail: bytes): bytes {
    Little(|text|, 8) + (text + tail)
  }

  function DimensionsBytes(shape: seq<nat>, tail: bytes): bytes {
    if shape == [] then tail else Little(shape[0], 8) + DimensionsBytes(shape[1..], tail)
  }

  function ShapeBytes(shape: seq<nat>, tail: bytes): bytes {
    Little(|shape|, 4) + DimensionsBytes(shape, tail)
  }

  /** The constant columns and flags that the kind determines. */
  function FlagBytes(d: Declaration, tail: bytes): bytes {
    var column, scaled := d.ColumnTransformer?, !d.TensorPca?;
    Signed(if column then 0 else -1) + (Signed(if column then 1 else -1)
      + (Little(Flag(scaled), 4) + (Little(Flag(scaled), 4) + (Little(0, 4)
      + (Little(Flag(column), 4) + tail)))))
  }

  function DeclarationBytes(d: Declaration, weight: bytes, tail: bytes): bytes {
    Little(Kind(d), 4) + (weight
      + (Little(if d.TensorPca? then d.nComponents else 0, 8)
      + (Little(if d.TensorPca? then d.randomState else 0, 8) + FlagBytes(d, tail))))
  }

  function SchemaBytes(s: Schema, tail: bytes): bytes {
    LongText(s.representation, LongText(s.dtype, LongText(s.identity, ShapeBytes(s.inputShape, tail))))
  }

  function SourceBytes(source: bytes, s: Schema, d: Declaration, weight: bytes, tail: bytes): bytes {
    LongText(source, SchemaBytes(s, DeclarationBytes(d, weight, tail)))
  }

  predicate Listed(r: Recipe, schemas: map<bytes, Schema>, order: seq<bytes>) {
    forall source <- order :: source in schemas && source in r.encoders && source in r.weights
  }

  function SourcesBytes(r: Recipe, schemas: map<bytes, Schema>, order: seq<bytes>, tail: bytes): bytes
    requires Listed(r, schemas, order)
  {
    if order == [] then tail
    else SourceBytes(order[0], schemas[order[0]], r.encoders[order[0]], r.weights[order[0]],
                     SourcesBytes(r, schemas, order[1..], tail))
  }

  function RecipeBytes(r: Recipe, schemas: map<bytes, Schema>, tail: bytes): bytes
    requires Listed(r, schemas, r.sourceOrder)
  {
    LongText(METHOD, Little(r.nComponents, 8) + (Little(r.maxIter, 8) + (Little(|r.sourceOrder|, 4)
      + SourcesBytes(r, schemas, r.sourceOrder, tail))))
  }

  // ---- Every part can be told from what follows it --------------------------------------

  lemma SamePrefix(a: bytes, b: bytes, s: bytes, t: bytes)
    requires |a| == |b| && a + s == b + t
    ensures a == b && s == t
  {
    assert (a + s)[..|a|] == a && (b + t)[..|b|] == b;
    assert (a + s)[|a|..] == s && (b + t)[|b|..] == t;
  }

  lemma SameNumber(x: nat, y: nat, width: nat, s: bytes, t: bytes)
    requires x < Pow256(width) && y < Pow256(width)
    requires Little(x, width) + s == Little(y, width) + t
    ensures x == y && s == t
  {
    SamePrefix(Little(x, width), Little(y, width), s, t);
    NumberOfLittle(x, width);
    NumberOfLittle(y, width);
  }

  lemma SameText(x: bytes, y: bytes, s: bytes, t: bytes)
    requires |x| <= TEXT_LIMIT && |y| <= TEXT_LIMIT
    requires LongText(x, s) == LongText(y, t)
    ensures x == y && s == t
  {
    Widths();
    SameNumber(|x|, |y|, 8, x + s, y + t);
    SamePrefix(x, y, s, t);
  }

  lemma {:induction false} SameDimensions(x: seq<nat>, y: seq<nat>, s: bytes, t: bytes)
    requires |x| == |y| && DimensionsBytes(x, s) == DimensionsBytes(y, t)
    requires Bounded(x) && Bounded(y)
    ensures x == y && s == t
  {
    if x != [] {
      Widths();
      SameNumber(x[0], y[0], 8, DimensionsBytes(x[1..], s), DimensionsBytes(y[1..], t));
      SameDimensions(x[1..], y[1..], s, t);
      assert x == [x[0]] + x[1..] && y == [y[0]] + y[1..];
    }
  }

  lemma SameShape(x: seq<nat>, y: seq<nat>, s: bytes, t: bytes)
    requires |x| <= 7 && |y| <= 7 && ShapeBytes(x, s) == ShapeBytes(y, t)
    requires Bounded(x) && Bounded(y)
    ensures x == y && s == t
  {
    Widths();
    SameNumber(|x|, |y|, 4, DimensionsBytes(x, s), DimensionsBytes(y, t));
    SameDimensions(x, y, s, t);
  }

  lemma SameSchema(x: Schema, y: Schema, s: bytes, t: bytes)
    requires GoodSchema(x) && GoodSchema(y) && SchemaBytes(x, s) == SchemaBytes(y, t)
    ensures x == y && s == t
  {
    var xi, yi := ShapeBytes(x.inputShape, s), ShapeBytes(y.inputShape, t);
    SameText(x.representation, y.representation, LongText(x.dtype, LongText(x.identity, xi)),
             LongText(y.dtype, LongText(y.identity, yi)));
    SameText(x.dtype, y.dtype, LongText(x.identity, xi), LongText(y.identity, yi));
    SameText(x.identity, y.identity, xi, yi);
    SameShape(x.inputShape, y.inputShape, s, t);
  }

  lemma FlagsEnd(d: Declaration, tail: bytes)
    ensures |FlagBytes(d, tail)| == 32 + |tail|
    ensures FlagBytes(d, tail)[32..] == tail
  {
  }

  lemma SameDeclaration(x: Declaration, y: Declaration, w: bytes, v: bytes, s: bytes, t: bytes)
    requires GoodDeclaration(x) && GoodDeclaration(y) && |w| == |v| == 8
    requires DeclarationBytes(x, w, s) == DeclarationBytes(y, v, t)
    ensures x == y && w == v && s == t
  {
    Widths();
    var nx, ny := if x.TensorPca? then x.nComponents else 0, if y.TensorPca? then y.nComponents else 0;
    var rx, ry := if x.TensorPca? then x.randomState else 0, if y.TensorPca? then y.randomState else 0;
    var fx, fy := FlagBytes(x, s), FlagBytes(y, t);
    SameNumber(Kind(x), Kind(y), 4, w + (Little(nx, 8) + (Little(rx, 8) + fx)),
               v + (Little(ny, 8) + (Little(ry, 8) + fy)));
    SamePrefix(w, v, Little(nx, 8) + (Little(rx, 8) + fx), Little(ny, 8) + (Little(ry, 8) + fy));
    SameNumber(nx, ny, 8, Little(rx, 8) + fx, Little(ry, 8) + fy);
    SameNumber(rx, ry, 8, fx, fy);
    FlagsEnd(x, s);
    FlagsEnd(y, t);
  }

  lemma SameSource(a: bytes, b: bytes, x: Schema, y: Schema, d: Declaration, e: Declaration,
                   w: bytes, v: bytes, s: bytes, t: bytes)
    requires |a| <= NAME_LIMIT && |b| <= NAME_LIMIT && GoodSchema(x) && GoodSchema(y)
    requires GoodDeclaration(d) && GoodDeclaration(e) && |w| == |v| == 8
    requires SourceBytes(a, x, d, w, s) == SourceBytes(b, y, e, v, t)
    ensures a == b && x == y && d == e && w == v && s == t
  {
    var p, q := DeclarationBytes(d, w, s), DeclarationBytes(e, v, t);
    SameText(a, b, SchemaBytes(x, p), SchemaBytes(y, q));
    SameSchema(x, y, p, q);
    SameDeclaration(d, e, w, v, s, t);
  }

  /** Two recipes say the same about a listed source. */
  predicate SameAt(r1: Recipe, s1: map<bytes, Schema>, r2: Recipe, s2: map<bytes, Schema>, source: bytes) {
    && source in s1 && source in s2 && s1[source] == s2[source]
    && source in r1.encoders && source in r2.encoders && r1.encoders[source] == r2.encoders[source]
    && source in r1.weights && source in r2.weights && r1.weights[source] == r2.weights[source]
  }

  ghost predicate GoodSources(r: Recipe, schemas: map<bytes, Schema>, order: seq<bytes>) {
    && Listed(r, schemas, order)
    && forall i :: 0 <= i < |order| ==>
         && |order[i]| <= NAME_LIMIT && GoodSchema(schemas[order[i]])
         && GoodDeclaration(r.encoders[order[i]]) && |r.weights[order[i]]| == 8
  }

  lemma {:induction false} SameSources(
    r1: Recipe, s1: map<bytes, Schema>, o1: seq<bytes>, t1: bytes,
    r2: Recipe, s2: map<bytes, Schema>, o2: seq<bytes>, t2: bytes)
    requires |o1| == |o2| && GoodSources(r1, s1, o1) && GoodSources(r2, s2, o2)
    requires SourcesBytes(r1, s1, o1, t1) == SourcesBytes(r2, s2, o2, t2)
    ensures o1 == o2 && t1 == t2
    ensures forall i :: 0 <= i < |o1| ==> SameAt(r1, s1, r2, s2, o1[i])
    decreases |o1|
  {
    if o1 != [] {
      var a, b := o1[0], o2[0];
      SameSource(a, b, s1[a], s2[b], r1.encoders[a], r2.encoders[b], r1.weights[a], r2.weights[b],
                 SourcesBytes(r1, s1, o1[1..], t1), SourcesBytes(r2, s2, o2[1..], t2));
      SameSources(r1, s1, o1[1..], t1, r2, s2, o2[1..], t2);
      assert o1 == [a] + o1[1..] && o2 == [b] + o2[1..];
      forall i | 0 <= i < |o1| ensures SameAt(r1, s1, r2, s2, o1[i]) {
        if i > 0 {
          assert o1[1..][i - 1] == o1[i];
        }
      }
    }
  }

  /**
   * Two validated recipes with the same canonical bytes, whatever follows them, agree on the
   * model parameters, the source order, and for every source on schema, declaration and weight.
   */
  lemma CanonicalRecipeInjective(r1: Recipe, s1: map<bytes, Schema>, t1: bytes, r2: Recipe, s2: map<bytes, Schema>,
                                 t2: bytes)
    requires Validated(r1, s1) && Validated(r2, s2)
    requires RecipeBytes(r1, s1, t1) == RecipeBytes(r2, s2, t2)
    ensures t1 == t2
    ensures r1.nComponents == r2.nComponents && r1.maxIter == r2.maxIter && r1.sourceOrder == r2.sourceOrder
    ensures forall source <- r1.sourceOrder :: SameAt(r1, s1, r2, s2, source)
  {
    hide Little, SourcesBytes, SameAt;
    Widths();
    var o1, o2 := r1.sourceOrder, r2.sourceOrder;
    var b1, b2 := SourcesBytes(r1, s1, o1, t1), SourcesBytes(r2, s2, o2, t2);
    SameText(METHOD, METHOD, Little(r1.nComponents, 8) + (Little(r1.maxIter, 8) + (Little(|o1|, 4) + b1)),
             Little(r2.nComponents, 8) + (Little(r2.maxIter, 8) + (Little(|o2|, 4) + b2)));
    SameNumber(r1.nComponents, r2.nComponents, 8, Little(r1.maxIter, 8) + (Little(|o1|, 4) + b1),
               Little(r2.maxIter, 8) + (Little(|o2|, 4) + b2));
    SameNumber(r1.maxIter, r2.maxIter, 8, Little(|o1|, 4) + b1, Little(|o2|, 4) + b2);
    SameNumber(|o1|, |o2|, 4, b1, b2);
    SameSources(r1, s1, o1, t1, r2, s2, o2, t2);
    forall source | source in o1 ensures SameAt(r1, s1, r2, s2, source) {
      var i :| 0 <= i < |o1| && o1[i] == source;
    }
  }

  /** And conversely: the bytes depend on nothing else. */
  lemma {:induction false} SourcesDependOnListed(
    r1: Recipe, s1: map<bytes, Schema>, r2: Recipe, s2: map<bytes, Schema>, order: seq<bytes>, tail: bytes)
    requires Listed(r1, s1, order) && Listed(r2, s2, order)
    requires forall source <- order :: SameAt(r1, s1, r2, s2, source)
    ensures SourcesBytes(r1, s1, order, tail) == SourcesBytes(r2, s2, order, tail)
    decreases |order|
  {
    if order != [] {
      assert order[0] in order;
      SourcesDependOnListed(r1, s1, r2, s2, order[1..], tail);
    }
  }

  /** A frame whose first block is the canonical recipe is bound to one recipe. */
  lemma FrameBindsRecipe(s: bytes, r1: Recipe, s1: map<bytes, Schema>, r2: Recipe, s2: map<bytes, Schema>)
    requires Validated(r1, s1) && Validated(r2, s2)
    requires BlockFrom(s).Got? && BlockFrom(s).value == RecipeBytes(r1, s1, [])
    ensures BlockFrom(s).value == RecipeBytes(r2, s2, []) <==>
            && r1.nComponents == r2.nComponents && r1.maxIter == r2.maxIter && r1.sourceOrder == r2.sourceOrder
            && forall source <- r1.sourceOrder :: SameAt(r1, s1, r2, s2, source)
  {
    if RecipeBytes(r1, s1, []) == RecipeBytes(r2, s2, []) {
      CanonicalRecipeInjective(r1, s1, [], r2, s2, []);
    }
    if r1.sourceOrder == r2.sourceOrder && forall source <- r1.sourceOrder :: SameAt(r1, s1, r2, s2, source) {
      SourcesDependOnListed(r1, s1, r2, s2, r1.sourceOrder, []);
    }
  }
}
