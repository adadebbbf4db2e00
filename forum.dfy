/** The JSON post-processing of the forum API (forum/backend/main.py):
    DynamoDB hands numbers back as decimals, and `convert_decimals` turns
    them into ints or floats before the reply is serialised. */
module ForumBackend {
  import opened Wrappers
  import opened Text

  /** A value as the store returns it. `Decimal` holds the exact value;
      `Float` holds the value a float was made from, its binary rounding
      being left out. An object keeps its fields in order. */
  datatype Json =
    | JList(items: seq<Json>)
    | JObject(fields: seq<Field>)
    | Decimal(d: real)
    | Int(i: int)
    | Float(f: real)
    | Str(s: string)
    | Bool(b: bool)
    | Null

  datatype Field = Field(key: string, value: Json)

  /** A decimal with no fractional part: `obj % 1 == 0`. */
  predicate Integral(d: real) {
    d == d.Floor as real
  }

  predicate NoDecimals(j: Json) {
    match j
    case JList(items) => forall i :: 0 <= i < |items| ==> NoDecimals(items[i])
    case JObject(fields) => forall i :: 0 <= i < |fields| ==> NoDecimals(fields[i].value)
    case Decimal(_) => false
    case _ => true
  }

  function Keys(fields: seq<Field>): (r: seq<string>)
    ensures |r| == |fields|
  {
    seq(|fields|, i requires 0 <= i < |fields| => fields[i].key)
  }

  /** `convert_decimals`: lists elementwise, objects field by field under
      the same keys, integral decimals to ints of the same value, other
      decimals to floats, everything else unchanged. */
  function ConvertDecimals(j: Json): (r: Json)
    ensures NoDecimals(r)
    ensures j.JList? ==> r.JList? && |r.items| == |j.items|
    ensures j.JObject? ==> r.JObject? && Keys(r.fields) == Keys(j.fields)
    ensures j.Decimal? && Integral(j.d) ==> r.Int? && r.i as real == j.d
    ensures j.Decimal? && !Integral(j.d) ==> r == Float(j.d)
    ensures !j.JList? && !j.JObject? && !j.Decimal? ==> r == j
    decreases j
  {
    match j
    case JList(items) =>
      JList(seq(|items|, i requires 0 <= i < |items| => ConvertDecimals(items[i])))
    case JObject(fields) =>
      JObject(seq(|fields|, i requires 0 <= i < |fields| => Field(fields[i].key, ConvertDecimals(fields[i].value))))
    case Decimal(d) =>
      if Integral(d) then Int(d.Floor) else Float(d)
    case _ => j
  }

  /** A value without decimals is left exactly as it is. */
  lemma {:induction false} ConvertFixesDecimalFree(j: Json)
    requires NoDecimals(j)
    ensures ConvertDecimals(j) == j
    decreases j
  {
    match j
    case JList(items) =>
      forall i | 0 <= i < |items|
        ensures ConvertDecimals(items[i]) == items[i]
      {
        ConvertFixesDecimalFree(items[i]);
      }
      assert ConvertDecimals(j).items == items;
    case JObject(fields) =>
      forall i | 0 <= i < |fields|
        ensures ConvertDecimals(fields[i].value) == fields[i].value
      {
        ConvertFixesDecimalFree(fields[i].value);
      }
      assert ConvertDecimals(j).fields == fields;
    case _ =>
  }

  /** Converting twice is converting once. */
  lemma ConvertIdempotent(j: Json)
    ensures ConvertDecimals(ConvertDecimals(j)) == ConvertDecimals(j)
  {
    ConvertFixesDecimalFree(ConvertDecimals(j));
  }

  /** Elements and field values are converted in place, in order. */
  lemma ConvertElementwise(j: Json)
    ensures j.JList? ==> forall i :: 0 <= i < |j.items| ==> ConvertDecimals(j).items[i] == ConvertDecimals(j.items[i])
    ensures j.JObject? ==> forall i :: 0 <= i < |j.fields| ==>
      ConvertDecimals(j).fields[i] == Field(j.fields[i].key, ConvertDecimals(j.fields[i].value))
  {
  }

  datatype SearchReply = Found(results: Json) | Error(status: int)

  const BadRequest := 400
  const ServerError := 500

  /** `search_questions`: a query that is empty or whitespace only is
      refused before the store is asked; `found` is what the store's
      search returned, `None` when it raised. */
  function SearchQuestions(q: string, found: Option<Json>): (r: SearchReply)
    ensures r == Error(BadRequest) <==> AllSpace(q)
    ensures !AllSpace(q) && found.Some? ==> r == Found(ConvertDecimals(found.value)) && NoDecimals(r.results)
    ensures !AllSpace(q) && found.None? ==> r == Error(ServerError)
  {
    StripEmpty(q);
    if q == [] || |Strip(q)| == 0 then Error(BadRequest)
    else match found
      case None => Error(ServerError)
      case Some(results) => Found(ConvertDecimals(results))
  }
}
