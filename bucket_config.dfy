/**
 * The ExtractModulesPlugin constructor: it validates the user's bucket
 * specifications one by one, in order, and normalises each into a bucket
 * with a callable test, an optional `only` list and an `except` list.
 * Any error is rethrown behind a fixed prefix and no bucket list is kept.
 */
module BucketConfig {
  import opened Wrappers

  /** A compiled bucket test: a predicate over module resource strings. */
  type Matcher = string -> bool

  /** Compiles the text of a regular expression, or gives the SyntaxError message. */
  type Compiler = string -> Result<Matcher, string>

  const GenericError: string := "Invalid use of ExtractModulesPlugin: "
  const Usage: string := "use ExtractModulesPlugin([ name: \"vendor\", test: /node_modules/ ]) > "
  const NoNameMessage: string := "you need to provide a name for each bucket"
  const NoTestMessage: string := "you need to provide a valid regular expression for each bucket"

  /** The `test` field as the user gives it: missing, a RegExp object, or pattern text. */
  datatype RawTest = NoTest | RegExp(matcher: Matcher) | Pattern(source: string)

  /** An `only` or `except` field as the user gives it: missing, one name, or an array. */
  datatype RawList = Absent | Single(item: string) | Many(items: seq<string>)

  /** A bucket specification before validation. */
  datatype BucketSpec = BucketSpec(name: Option<string>, test: RawTest, only: RawList, except: RawList)

  /** A validated bucket: `test` is callable, `only` is a list or absent, `except` is a list. */
  datatype Bucket = Bucket(name: string, test: Matcher, only: Option<seq<string>>, except: seq<string>)

  /** The name is truthy: present and not the empty string. */
  predicate HasName(spec: BucketSpec) {
    spec.name.Some? && spec.name.value != ""
  }

  /** The test is truthy: a RegExp object, or non-empty pattern text. */
  predicate HasTest(spec: BucketSpec) {
    spec.test.RegExp? || (spec.test.Pattern? && spec.test.source != "")
  }

  /** The message a thrown error carries once the constructor has wrapped it. */
  function Wrapped(message: string): (r: string)
    ensures |r| == |GenericError| + |Usage| + |message|
    ensures r[..|GenericError|] == GenericError
    ensures r[|GenericError| + |Usage|..] == message
  {
    GenericError + Usage + message
  }

  /** A truthy `only` that is not an array becomes a one-element list; a falsy one stays absent. */
  function NormalizeOnly(only: RawList): (r: Option<seq<string>>)
    ensures only.Absent? ==> r.None?
    ensures only.Single? ==> r == (if only.item == "" then None else Some([only.item]))
    ensures only.Many? ==> r == Some(only.items)
  {
    match only
    case Absent => None
    case Single(item) => if item == "" then None else Some([item])
    case Many(items) => Some(items)
  }

  /** A truthy `except` that is not an array becomes a one-element list; a falsy one becomes []. */
  function NormalizeExcept(except: RawList): (r: seq<string>)
    ensures except.Absent? ==> r == []
    ensures except.Single? ==> r == (if except.item == "" then [] else [except.item])
    ensures except.Many? ==> r == except.items
  {
    match except
    case Absent => []
    case Single(item) => if item == "" then [] else [item]
    case Many(items) => items
  }

  /**
   * The callback given to `buckets.map`: the name is checked first, then the
   * test; pattern text is compiled into a RegExp, whose test becomes the
   * bucket's predicate.
   */
  function NormalizeBucket(spec: BucketSpec, compile: Compiler): (r: Result<Bucket, string>)
    ensures !HasName(spec) ==> r.Err? && r.error == NoNameMessage
    ensures HasName(spec) && !HasTest(spec) ==> r.Err? && r.error == NoTestMessage
    ensures HasName(spec) && HasTest(spec) && spec.test.Pattern? && compile(spec.test.source).Err? ==>
              r.Err? && r.error == compile(spec.test.source).error
    ensures r.Ok? <==> HasName(spec) && HasTest(spec) && (spec.test.Pattern? ==> compile(spec.test.source).Ok?)
    ensures r.Ok? ==> r.value.name == spec.name.value
    ensures r.Ok? && spec.test.RegExp? ==> r.value.test == spec.test.matcher
    ensures r.Ok? && spec.test.Pattern? ==> r.value.test == compile(spec.test.source).value
    ensures r.Ok? ==> r.value.only == NormalizeOnly(spec.only) && r.value.except == NormalizeExcept(spec.except)
  {
    if !HasName(spec) then Err(NoNameMessage)
    else if !HasTest(spec) then Err(NoTestMessage)
    else
      var compiled :=
        match spec.test
        case RegExp(m) => Ok(m)
        case Pattern(source) => compile(source);
      match compiled
      case Err(message) => Err(message)
      case Ok(m) => Ok(Bucket(spec.name.value, m, NormalizeOnly(spec.only), NormalizeExcept(spec.except)))
  }

  /**
   * The constructor: normalises every specification in order. The first
   * failing specification aborts the whole construction with its message
   * behind the fixed prefix; otherwise the buckets keep the input order.
   */
  method Construct(specs: seq<BucketSpec>, compile: Compiler) returns (r: Result<seq<Bucket>, string>)
    ensures r.Ok? <==> forall i | 0 <= i < |specs| :: NormalizeBucket(specs[i], compile).Ok?
    ensures r.Ok? ==> |r.value| == |specs|
    ensures r.Ok? ==> forall i | 0 <= i < |specs| :: NormalizeBucket(specs[i], compile) == Ok(r.value[i])
    ensures r.Err? ==> |GenericError| <= |r.error| && r.error[..|GenericError|] == GenericError
    ensures r.Err? ==>
      exists i | 0 <= i < |specs| ::
        && NormalizeBucket(specs[i], compile).Err?
        && (forall j | 0 <= j < i :: NormalizeBucket(specs[j], compile).Ok?)
        && r.error == Wrapped(NormalizeBucket(specs[i], compile).error)
  {
    var buckets: seq<Bucket> := [];
    for i := 0 to |specs|
      invariant |buckets| == i
      invariant forall j | 0 <= j < i :: NormalizeBucket(specs[j], compile) == Ok(buckets[j])
    {
      var b := NormalizeBucket(specs[i], compile);
      if b.Err? {
        return Err(Wrapped(b.error));
      }
      buckets := buckets + [b.value];
    }
    return Ok(buckets);
  }
}
