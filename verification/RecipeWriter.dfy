/** `canonical_recipe`, the loop that extends one byte array, proved to print the canonical bytes. */
module RecipeWriter {
  import opened Bytes
  import opened StateFrames
  import opened LatentState
  import opened RecipeCodec

  lemma Appended(result: bytes, part: bytes, tail: bytes)
    ensures result + (part + tail) == (result + part) + tail
  {
  }

  method AppendText(result: bytes, text: bytes) returns (out: bytes)
    ensures forall tail :: out + tail == result + LongText(text, tail)
  {
    out := result + Little(|text|, 8);
    out := out + text;
    forall tail ensures out + tail == result + LongText(text, tail) {
      Appended(result, Little(|text|, 8), text + tail);
      Appended(result + Little(|text|, 8), text, tail);
    }
  }

  method AppendShape(result: bytes, shape: seq<nat>) returns (out: bytes)
    ensures forall tail :: out + tail == result + ShapeBytes(shape, tail)
  {
    out := result + Little(|shape|, 4);
    forall tail ensures out + DimensionsBytes(shape, tail) == result + ShapeBytes(shape, tail) {
      Appended(result, Little(|shape|, 4), DimensionsBytes(shape, tail));
    }
    for i := 0 to |shape|
      invariant forall tail :: out + DimensionsBytes(shape[i..], tail) == result + ShapeBytes(shape, tail)
    {
      ghost var before := out;
      out := out + Little(shape[i], 8);
      forall tail ensures out + DimensionsBytes(shape[i + 1..], tail) == result + ShapeBytes(shape, tail) {
        assert shape[i..][1..] == shape[i + 1..];
        assert before + DimensionsBytes(shape[i..], tail) == result + ShapeBytes(shape, tail);
        Appended(before, Little(shape[i], 8), DimensionsBytes(shape[i + 1..], tail));
      }
    }
    assert shape[|shape|..] == [];
    assert forall tail :: DimensionsBytes([], tail) == tail;
  }

  method AppendDeclaration(result: bytes, d: Declaration, weight: bytes) returns (out: bytes)
    ensures forall tail :: out + tail == result + DeclarationBytes(d, weight, tail)
  {
    var packed := DeclarationBytes(d, weight, []);
    out := result + packed;
    forall tail ensures out + tail == result + DeclarationBytes(d, weight, tail) {
      DeclarationTail(d, weight, tail);
      Appended(result, packed, tail);
    }
  }

  lemma FlagTail(d: Declaration, tail: bytes)
    ensures FlagBytes(d, []) + tail == FlagBytes(d, tail)
  {
    FlagsEnd(d, tail);
    FlagsEnd(d, []);
    assert FlagBytes(d, tail)[..32] == FlagBytes(d, [])[..32];
    assert FlagBytes(d, tail) == FlagBytes(d, tail)[..32] + FlagBytes(d, tail)[32..];
  }

  lemma DeclarationTail(d: Declaration, weight: bytes, tail: bytes)
    ensures DeclarationBytes(d, weight, []) + tail == DeclarationBytes(d, weight, tail)
  {
    FlagTail(d, tail);
    var k := Little(Kind(d), 4);
    var n := Little(if d.TensorPca? then d.nComponents else 0, 8);
    var r := Little(if d.TensorPca? then d.randomState else 0, 8);
    var f := FlagBytes(d, []);
    Appended(r, f, tail);
    Appended(n, r + f, tail);
    Appended(weight, n + (r + f), tail);
    Appended(k, weight + (n + (r + f)), tail);
  }

  method CanonicalRecipe(recipe: Recipe, schemas: map<bytes, Schema>) returns (result: bytes)
    requires Listed(recipe, schemas, recipe.sourceOrder)
    ensures result == RecipeBytes(recipe, schemas, [])
  {
    var order := recipe.sourceOrder;
    result := AppendText([], METHOD);
    ghost var start := result;
    result := result + Little(recipe.nComponents, 8) + Little(recipe.maxIter, 8) + Little(|order|, 4);
    ghost var sources := SourcesBytes(recipe, schemas, order, []);
    ghost var whole := RecipeBytes(recipe, schemas, []);
    assert whole == result + sources by {
      var n, m, c := Little(recipe.nComponents, 8), Little(recipe.maxIter, 8), Little(|order|, 4);
      assert start + (n + (m + (c + sources))) == [] + whole;
      Appended(start, n, m + (c + sources));
      Appended(start + n, m, c + sources);
      Appended(start + n + m, c, sources);
    }
    for i := 0 to |order|
      invariant whole == result + SourcesBytes(recipe, schemas, order[i..], [])
    {
      var source := order[i];
      assert order[i..][1..] == order[i + 1..];
      var schema, decl, weight := schemas[source], recipe.encoders[source], recipe.weights[source];
      ghost var rest := SourcesBytes(recipe, schemas, order[i + 1..], []);
      ghost var declared := DeclarationBytes(decl, weight, rest);
      ghost var before := result;
      assert whole == before + SourceBytes(source, schema, decl, weight, rest);
      result := AppendText(result, source);
      assert result + SchemaBytes(schema, declared) == whole;
      result := AppendText(result, schema.representation);
      result := AppendText(result, schema.dtype);
      result := AppendText(result, schema.identity);
      assert result + ShapeBytes(schema.inputShape, declared) == whole;
      result := AppendShape(result, schema.inputShape);
      assert result + declared == whole;
      result := AppendDeclaration(result, decl, weight);
      assert result + rest == whole;
    }
    assert order[|order|..] == [];
  }
}
