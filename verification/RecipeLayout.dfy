/** The canonical recipe by byte. */
module RecipeLayout {
  import opened Bytes
  import opened StateFrames
  import opened LatentState
  import opened RecipeCodec
  import opened ByteLayout

  /** A text behind its length in eight bytes. */
  function TextThen(text: bytes, tail: bytes): bytes {
    P64(|text|) + (text + tail)
  }

  function DimensionsThen(shape: seq<nat>, tail: bytes): bytes {
    if shape == [] then tail else P64(shape[0]) + DimensionsThen(shape[1..], tail)
  }

  /** -1 and -1 for the columns, 1 and 1 for the scaling, no constant, no column flag. */
  const SCALER_TAIL: bytes := [
    255, 255, 255, 255, 255, 255, 255, 255, 255, 255, 255, 255, 255, 255, 255, 255,
    1, 0, 0, 0, 1, 0, 0, 0, 0, 0, 0, 0, 0, 0, 0, 0]
  /** The same without scaling. */
  const PCA_TAIL: bytes := [
    255, 255, 255, 255, 255, 255, 255, 255, 255, 255, 255, 255, 255, 255, 255, 255,
    0, 0, 0, 0, 0, 0, 0, 0, 0, 0, 0, 0, 0, 0, 0, 0]
  /** Columns 0 and 1, scaling, and the column flag. */
  const COLUMN_TAIL: bytes := [
    0, 0, 0, 0, 0, 0, 0, 0, 1, 0, 0, 0, 0, 0, 0, 0,
    1, 0, 0, 0, 1, 0, 0, 0, 0, 0, 0, 0, 1, 0, 0, 0]

  const ZERO_PAIR: bytes := [0, 0, 0, 0, 0, 0, 0, 0, 0, 0, 0, 0, 0, 0, 0, 0]

  /** The declaration's record: kind, weight, the two numbers of a PCA, and constants of the kind. */
  function DeclarationThen(d: Declaration, weight: bytes, tail: bytes): bytes {
    match d
    case StandardScaler => [1, 0, 0, 0] + (weight + (ZERO_PAIR + (SCALER_TAIL + tail)))
    case TensorPca(n, seed) => [2, 0, 0, 0] + (weight + (P64(n) + (P64(seed) + (PCA_TAIL + tail))))
    case ColumnTransformer => [3, 0, 0, 0] + (weight + (ZERO_PAIR + (COLUMN_TAIL + tail)))
  }

  /** One source: its name, its schema's three texts and dimensions, and its declaration. */
  function SourceThen(source: bytes, s: Schema, d: Declaration, weight: bytes, tail: bytes): bytes {
    TextThen(source, TextThen(s.representation, TextThen(s.dtype, TextThen(s.identity,
      P32(|s.inputShape|) + DimensionsThen(s.inputShape, DeclarationThen(d, weight, tail))))))
  }

  function SourcesThen(r: Recipe, schemas: map<bytes, Schema>, order: seq<bytes>): bytes
    requires Listed(r, schemas, order)
  {
    if order == [] then []
    else SourceThen(order[0], schemas[order[0]], r.encoders[order[0]], r.weights[order[0]],
                    SourcesThen(r, schemas, order[1..]))
  }

  /** The method's name behind its length, the two parameters, and the sources behind their number. */
  function RecipeThen(r: Recipe, schemas: map<bytes, Schema>): bytes
    requires Listed(r, schemas, r.sourceOrder)
  {
    [34, 0, 0, 0, 0, 0, 0, 0] + (Ascii("models.classification.pls_logistic") + (P64(r.nComponents) + (P64(r.maxIter)
      + (P32(|r.sourceOrder|) + SourcesThen(r, schemas, r.sourceOrder)))))
  }

  // ---- These are the bytes --------------------------------------------------------------------

  lemma TextIs(text: bytes, tail: bytes)
    ensures LongText(text, tail) == TextThen(text, tail)
  {
    PackedBytes(|text|);
    hide Little, P64;
  }

  lemma {:induction false} DimensionsAre(shape: seq<nat>, tail: bytes)
    ensures DimensionsBytes(shape, tail) == DimensionsThen(shape, tail)
  {
    if shape != [] {
      DimensionsAre(shape[1..], tail);
      PackedBytes(shape[0]);
      hide Little, P64;
    }
  }

  lemma Words()
    ensures P64(0xFFFF_FFFF_FFFF_FFFF) == MINUS
    ensures P64(0) == [0, 0, 0, 0, 0, 0, 0, 0] && P64(1) == [1, 0, 0, 0, 0, 0, 0, 0]
  {
    assert P32(0xFFFF_FFFF_FFFF_FFFF) == [255, 255, 255, 255] && P32(0xFFFF_FFFF) == [255, 255, 255, 255];
    assert P32(0) == [0, 0, 0, 0] && P32(1) == [1, 0, 0, 0];
  }

  lemma SignedWords()
    ensures Signed(-1) == MINUS
    ensures Signed(0) == [0, 0, 0, 0, 0, 0, 0, 0] && Signed(1) == [1, 0, 0, 0, 0, 0, 0, 0]
  {
    hide Little, P64;
    Words();
    PackedBytes(0xFFFF_FFFF_FFFF_FFFF);
    PackedBytes(0);
    PackedBytes(1);
  }

  lemma Joined(a: bytes, b: bytes, c: bytes, d: bytes, e: bytes, f: bytes, tail: bytes)
    ensures a + (b + (c + (d + (e + (f + tail))))) == (a + b + c + d + e + f) + tail
  {
  }

  lemma FourZeros()
    ensures Little(0, 4) == NO_WORD && Little(1, 4) == ONE_WORD
  {
    PackedBytes(0);
    PackedBytes(1);
    assert P32(0) == [0, 0, 0, 0] && P32(1) == [1, 0, 0, 0];
    hide Little;
  }

  const MINUS: bytes := [255, 255, 255, 255, 255, 255, 255, 255]
  const ONE_WORD: bytes := [1, 0, 0, 0]
  const NO_WORD: bytes := [0, 0, 0, 0]

  lemma ScalerConstants()
    ensures MINUS + MINUS + ONE_WORD + ONE_WORD + NO_WORD + NO_WORD == SCALER_TAIL
  {
  }

  lemma PcaConstants()
    ensures MINUS + MINUS + NO_WORD + NO_WORD + NO_WORD + NO_WORD == PCA_TAIL
  {
  }

  lemma ColumnConstants()
    ensures [0, 0, 0, 0, 0, 0, 0, 0] + [1, 0, 0, 0, 0, 0, 0, 0] + ONE_WORD + ONE_WORD + NO_WORD + ONE_WORD
            == COLUMN_TAIL
  {
  }

  function TailOf(d: Declaration): bytes {
    match d
    case StandardScaler => SCALER_TAIL
    case TensorPca(_, _) => PCA_TAIL
    case ColumnTransformer => COLUMN_TAIL
  }

  lemma FlagsAre(d: Declaration, tail: bytes)
    ensures FlagBytes(d, tail) == TailOf(d) + tail
  {
    var column, scaled := d.ColumnTransformer?, !d.TensorPca?;
    SignedWords();
    FourZeros();
    ScalerConstants();
    PcaConstants();
    ColumnConstants();
    hide Little, Signed, SCALER_TAIL, PCA_TAIL, COLUMN_TAIL, MINUS, ONE_WORD, NO_WORD;
    Joined(Signed(if column then 0 else -1), Signed(if column then 1 else -1), Little(Flag(scaled), 4),
           Little(Flag(scaled), 4), Little(0, 4), Little(Flag(column), 4), tail);
  }

  lemma Zeros()
    ensures P64(0) + P64(0) == ZERO_PAIR && P32(1) == [1, 0, 0, 0] && P32(2) == [2, 0, 0, 0] && P32(3) == [3, 0, 0, 0]
  {
    assert P32(0) == [0, 0, 0, 0];
  }

  lemma ZeroPair(tail: bytes)
    ensures Little(0, 8) + (Little(0, 8) + tail) == ZERO_PAIR + tail
  {
    Zeros();
    PackedBytes(0);
    hide Little, P64, ZERO_PAIR;
    var zero := P64(0);
    assert zero + (zero + tail) == (zero + zero) + tail;
  }

  lemma KindIs(d: Declaration)
    ensures Little(Kind(d), 4) == match d
                                  case StandardScaler => [1, 0, 0, 0]
                                  case TensorPca(_, _) => [2, 0, 0, 0]
                                  case ColumnTransformer => [3, 0, 0, 0]
  {
    Zeros();
    PackedBytes(Kind(d));
    hide Little;
  }

  lemma DeclarationIs(d: Declaration, weight: bytes, tail: bytes)
    ensures DeclarationBytes(d, weight, tail) == DeclarationThen(d, weight, tail)
  {
    hide Little, P64, FlagBytes, Kind, TailOf, SCALER_TAIL, PCA_TAIL, COLUMN_TAIL, ZERO_PAIR;
    FlagsAre(d, tail);
    KindIs(d);
    TailsAre(d);
    match d
    case StandardScaler => ZeroPair(SCALER_TAIL + tail);
    case ColumnTransformer => ZeroPair(COLUMN_TAIL + tail);
    case TensorPca(n, seed) =>
      PackedBytes(n);
      PackedBytes(seed);
  }

  lemma TailsAre(d: Declaration)
    ensures d.StandardScaler? ==> TailOf(d) == SCALER_TAIL
    ensures d.TensorPca? ==> TailOf(d) == PCA_TAIL
    ensures d.ColumnTransformer? ==> TailOf(d) == COLUMN_TAIL
  {
  }

  lemma SourceIs(source: bytes, s: Schema, d: Declaration, weight: bytes, tail: bytes)
    ensures SourceBytes(source, s, d, weight, tail) == SourceThen(source, s, d, weight, tail)
  {
    var declared := DeclarationThen(d, weight, tail);
    var dimensions := P32(|s.inputShape|) + DimensionsThen(s.inputShape, declared);
    var identity := TextThen(s.identity, dimensions);
    var dtype := TextThen(s.dtype, identity);
    var representation := TextThen(s.representation, dtype);
    DeclarationIs(d, weight, tail);
    DimensionsAre(s.inputShape, declared);
    PackedBytes(|s.inputShape|);
    TextIs(s.identity, dimensions);
    TextIs(s.dtype, identity);
    TextIs(s.representation, dtype);
    TextIs(source, representation);
    hide Little, P32, LongText, TextThen, DeclarationBytes, DeclarationThen, DimensionsBytes, DimensionsThen;
  }

  lemma {:induction false} SourcesAre(r: Recipe, schemas: map<bytes, Schema>, order: seq<bytes>)
    requires Listed(r, schemas, order)
    ensures SourcesBytes(r, schemas, order, []) == SourcesThen(r, schemas, order)
  {
    if order != [] {
      assert Listed(r, schemas, order[1..]);
      SourcesAre(r, schemas, order[1..]);
      var first := order[0];
      SourceIs(first, schemas[first], r.encoders[first], r.weights[first], SourcesThen(r, schemas, order[1..]));
      hide SourceBytes, SourceThen;
    }
  }

  lemma MethodIs()
    ensures METHOD == Ascii("models.classification.pls_logistic") && |METHOD| == 34
    ensures P64(34) == [34, 0, 0, 0, 0, 0, 0, 0]
  {
    assert P32(34) == [34, 0, 0, 0] && P32(0) == [0, 0, 0, 0];
  }

  /** The canonical recipe is exactly these bytes. */
  lemma RecipeByBytes(r: Recipe, schemas: map<bytes, Schema>)
    requires Listed(r, schemas, r.sourceOrder)
    ensures RecipeBytes(r, schemas, []) == RecipeThen(r, schemas)
  {
    hide Little, P32, P64, Ascii, SourcesBytes, SourcesThen, METHOD;
    MethodIs();
    SourcesAre(r, schemas, r.sourceOrder);
    PackedBytes(34);
    PackedBytes(r.nComponents);
    PackedBytes(r.maxIter);
    PackedBytes(|r.sourceOrder|);
  }

  // ---- One recipe of each kind, outright ----------------------------------------------------------

  /** One source `a` of representation `r`, dtype `f`, identity `i` and seven features, of weight 1.0. */
  function Sample(d: Declaration): Recipe {
    Recipe(2, 100, [Ascii("a")], map[Ascii("a") := d], map[Ascii("a") := [0, 0, 0, 0, 0, 0, 0xF0, 0x3F]])
  }

  function SampleSchemas(): map<bytes, Schema> {
    map[Ascii("a") := Schema(Ascii("r"), Ascii("f"), Ascii("i"), [7])]
  }

  const SAMPLE_MODEL: bytes := [2, 0, 0, 0, 0, 0, 0, 0, 100, 0, 0, 0, 0, 0, 0, 0, 1, 0, 0, 0]
  const SAMPLE_SCHEMA: bytes := [
    1, 0, 0, 0, 0, 0, 0, 0, 97, 1, 0, 0, 0, 0, 0, 0, 0, 114, 1, 0, 0, 0, 0, 0, 0, 0, 102,
    1, 0, 0, 0, 0, 0, 0, 0, 105, 1, 0, 0, 0, 7, 0, 0, 0, 0, 0, 0, 0]
  const METHOD_LENGTH: bytes := [34, 0, 0, 0, 0, 0, 0, 0]

  /** All but the declaration's record. */
  const SAMPLE_HEAD: bytes := METHOD_LENGTH + Ascii("models.classification.pls_logistic") + SAMPLE_MODEL + SAMPLE_SCHEMA

  const SCALER_FRONT: bytes := [
    1, 0, 0, 0, 0, 0, 0, 0, 0, 0, 240, 63, 0, 0, 0, 0, 0, 0, 0, 0, 0, 0, 0, 0, 0, 0, 0, 0]
  /** Three components, seed 5. */
  const PCA_FRONT: bytes := [
    2, 0, 0, 0, 0, 0, 0, 0, 0, 0, 240, 63, 3, 0, 0, 0, 0, 0, 0, 0, 5, 0, 0, 0, 0, 0, 0, 0]
  const COLUMN_FRONT: bytes := [
    3, 0, 0, 0, 0, 0, 0, 0, 0, 0, 240, 63, 0, 0, 0, 0, 0, 0, 0, 0, 0, 0, 0, 0, 0, 0, 0, 0]

  const SAMPLE_SCALER: bytes := SCALER_FRONT + SCALER_TAIL
  const SAMPLE_PCA: bytes := PCA_FRONT + PCA_TAIL
  const SAMPLE_COLUMNS: bytes := COLUMN_FRONT + COLUMN_TAIL

  lemma Letter(text: string, c: byte, tail: bytes)
    requires |text| == 1 && text[0] < '\U{80}' && text[0] as int == c
    ensures TextThen(Ascii(text), tail) == [1, 0, 0, 0, 0, 0, 0, 0, c] + tail
  {
    assert P64(1) == [1, 0, 0, 0, 0, 0, 0, 0] by {
      assert P32(1) == [1, 0, 0, 0] && P32(0) == [0, 0, 0, 0];
    }
    assert Ascii(text) == [c];
    hide P64, Ascii;
    assert [1, 0, 0, 0, 0, 0, 0, 0] + ([c] + tail) == [1, 0, 0, 0, 0, 0, 0, 0, c] + tail;
  }

  lemma Seven(tail: bytes)
    ensures P32(1) + DimensionsThen([7], tail) == SEVEN + tail
  {
    assert P32(1) == [1, 0, 0, 0] && P32(7) == [7, 0, 0, 0] && P32(0) == [0, 0, 0, 0];
    assert [7][1..] == [];
    assert DimensionsThen([7], tail) == P64(7) + tail;
    assert [1, 0, 0, 0] + (([7, 0, 0, 0] + [0, 0, 0, 0]) + tail) == [1, 0, 0, 0, 7, 0, 0, 0, 0, 0, 0, 0] + tail;
  }

  const A: bytes := [1, 0, 0, 0, 0, 0, 0, 0, 97]
  const R: bytes := [1, 0, 0, 0, 0, 0, 0, 0, 114]
  const F: bytes := [1, 0, 0, 0, 0, 0, 0, 0, 102]
  const I: bytes := [1, 0, 0, 0, 0, 0, 0, 0, 105]
  const SEVEN: bytes := [1, 0, 0, 0, 7, 0, 0, 0, 0, 0, 0, 0]

  lemma SampleSchema()
    ensures A + R + F + I + SEVEN + [] == SAMPLE_SCHEMA
  {
  }

  lemma SampleTexts(tail: bytes)
    ensures TextThen(Ascii("a"), TextThen(Ascii("r"), TextThen(Ascii("f"), TextThen(Ascii("i"), tail))))
         == A + (R + (F + (I + tail)))
  {
    hide TextThen, Ascii;
    Letter("i", 105, tail);
    Letter("f", 102, I + tail);
    Letter("r", 114, F + (I + tail));
    Letter("a", 97, R + (F + (I + tail)));
  }

  lemma SampleSource(d: Declaration, weight: bytes)
    ensures SourceThen(Ascii("a"), Schema(Ascii("r"), Ascii("f"), Ascii("i"), [7]), d, weight, [])
         == SAMPLE_SCHEMA + DeclarationThen(d, weight, [])
  {
    hide TextThen, Ascii, P32, DimensionsThen, DeclarationThen, SAMPLE_SCHEMA, A, R, F, I;
    var declared := DeclarationThen(d, weight, []);
    SampleSchema();
    Seven(declared);
    SampleTexts(SEVEN + declared);
    hide SEVEN;
    var nothing: bytes := [];
    assert nothing + declared == declared;
    Joined(A, R, F, I, SEVEN, nothing, declared);
  }

  const WEIGHT: bytes := [0, 0, 0, 0, 0, 0, 0xF0, 0x3F]

  lemma Four(a: bytes, b: bytes, c: bytes, d: bytes)
    ensures a + (b + (c + (d + []))) == (a + b + c) + d
  {
  }

  const PCA_NUMBERS: bytes := [3, 0, 0, 0, 0, 0, 0, 0, 5, 0, 0, 0, 0, 0, 0, 0]

  lemma Fronts()
    ensures [1, 0, 0, 0] + WEIGHT + ZERO_PAIR == SCALER_FRONT
    ensures [2, 0, 0, 0] + WEIGHT + PCA_NUMBERS == PCA_FRONT
    ensures [3, 0, 0, 0] + WEIGHT + ZERO_PAIR == COLUMN_FRONT
  {
  }

  lemma PcaNumbers()
    ensures P64(3) + P64(5) == PCA_NUMBERS
  {
    assert P32(3) == [3, 0, 0, 0] && P32(5) == [5, 0, 0, 0] && P32(0) == [0, 0, 0, 0];
  }

  lemma SampleDeclarations()
    ensures DeclarationThen(StandardScaler, WEIGHT, []) == SAMPLE_SCALER
    ensures DeclarationThen(TensorPca(3, 5), WEIGHT, []) == SAMPLE_PCA
    ensures DeclarationThen(ColumnTransformer, WEIGHT, []) == SAMPLE_COLUMNS
  {
    hide WEIGHT, ZERO_PAIR, SCALER_TAIL, PCA_TAIL, COLUMN_TAIL, SCALER_FRONT, PCA_FRONT, COLUMN_FRONT, PCA_NUMBERS,
         P64;
    Fronts();
    PcaNumbers();
    Four([1, 0, 0, 0], WEIGHT, ZERO_PAIR, SCALER_TAIL);
    Four([3, 0, 0, 0], WEIGHT, ZERO_PAIR, COLUMN_TAIL);
    ModelFirst(P64(3), P64(5), [], PCA_TAIL + []);
    assert P64(5) + [] == P64(5) && [] + (PCA_TAIL + []) == PCA_TAIL + [];
    Four([2, 0, 0, 0], WEIGHT, PCA_NUMBERS, PCA_TAIL);
  }

  /** The canonical bytes of a recipe with one source, for each kind of declaration. */
  lemma SamplesByBytes()
    ensures RecipeBytes(Sample(StandardScaler), SampleSchemas(), []) == SAMPLE_HEAD + SAMPLE_SCALER
    ensures RecipeBytes(Sample(TensorPca(3, 5)), SampleSchemas(), []) == SAMPLE_HEAD + SAMPLE_PCA
    ensures RecipeBytes(Sample(ColumnTransformer), SampleSchemas(), []) == SAMPLE_HEAD + SAMPLE_COLUMNS
  {
    hide DeclarationThen, RecipeBytes, SAMPLE_HEAD, SAMPLE_SCALER, SAMPLE_PCA, SAMPLE_COLUMNS, WEIGHT;
    SampleRecipe(StandardScaler);
    SampleRecipe(TensorPca(3, 5));
    SampleRecipe(ColumnTransformer);
    SampleDeclarations();
  }

  lemma SampleModel()
    ensures P64(2) + (P64(100) + P32(1)) == SAMPLE_MODEL
  {
    assert P32(2) == [2, 0, 0, 0] && P32(100) == [100, 0, 0, 0] && P32(0) == [0, 0, 0, 0] && P32(1) == [1, 0, 0, 0];
  }

  lemma SampleSources(d: Declaration)
    ensures SourcesThen(Sample(d), SampleSchemas(), Sample(d).sourceOrder)
            == SAMPLE_SCHEMA + DeclarationThen(d, WEIGHT, [])
  {
    hide DeclarationThen, SourceThen, Ascii, SAMPLE_SCHEMA;
    SampleSource(d, WEIGHT);
    var order := Sample(d).sourceOrder;
    assert order[1..] == [];
  }

  lemma SampleRecipe(d: Declaration)
    ensures RecipeBytes(Sample(d), SampleSchemas(), []) == SAMPLE_HEAD + DeclarationThen(d, WEIGHT, [])
  {
    var r, schemas := Sample(d), SampleSchemas();
    var declared := DeclarationThen(d, WEIGHT, []);
    hide DeclarationThen, P32, P64, SourcesThen, RecipeBytes, Ascii, SAMPLE_MODEL, SAMPLE_SCHEMA, WEIGHT;
    RecipeByBytes(r, schemas);
    SampleSources(d);
    SampleModel();
    ModelFirst(P64(2), P64(100), P32(1), SAMPLE_SCHEMA + declared);
    Joined(METHOD_LENGTH, Ascii("models.classification.pls_logistic"), SAMPLE_MODEL, SAMPLE_SCHEMA, [], [], declared);
    hide METHOD_LENGTH;
    assert METHOD_LENGTH + Ascii("models.classification.pls_logistic") + SAMPLE_MODEL + SAMPLE_SCHEMA + [] + []
        == SAMPLE_HEAD;
    assert [] + ([] + declared) == declared;
  }

  lemma ModelFirst(n: bytes, m: bytes, c: bytes, tail: bytes)
    ensures n + (m + (c + tail)) == (n + (m + c)) + tail
  {
  }
}
