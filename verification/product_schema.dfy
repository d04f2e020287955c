/** The product validators as predicates over JSON-like input: the client form schema,
    the server-side product form, the product query input and the product search
    parameters. An object's missing key reads as `undefined`; unknown keys are dropped
    from the parsed value. */
module ProductSchema {
  import opened Wrappers

  datatype Json =
    | JNull
    | JBool(b: bool)
    | JNum(r: real)
    | JStr(s: string)
    | JArr(items: seq<Json>)
    | JObj(fields: map<string, Json>)

  /** The typed value both product forms parse to. */
  datatype ProductFormData = ProductFormData(
    sku: string,
    name: string,
    price: string,
    categoryId: string,
    description: string,
    sizes: seq<string>,
    colors: seq<string>)

  /** The message the client schema attaches to an empty price. */
  const PriceMessage := "Make sure you enter product pricing"

  /** A problem with one field of the input: its key and why it was refused. */
  datatype Issue = Issue(path: string, message: string)

  const InvalidType := "Invalid input"

  predicate IsStringArray(v: Json)
  {
    v.JArr? && forall i :: 0 <= i < |v.items| ==> v.items[i].JStr?
  }

  function Strings(v: Json): (ss: seq<string>)
    requires IsStringArray(v)
    ensures |ss| == |v.items|
    ensures forall i :: 0 <= i < |ss| ==> v.items[i] == JStr(ss[i])
  {
    seq(|v.items|, i requires 0 <= i < |v.items| && IsStringArray(v) => v.items[i].s)
  }

  /** The field `key` of an object, `undefined` (`None`) when absent. */
  function Field(fields: map<string, Json>, key: string): Option<Json>
  {
    if key in fields then Some(fields[key]) else None
  }

  /** The issues of a string field `key`, with the optional minimum length `min1` of
      `.min(1, PriceMessage)`: a missing or non-string value gives one issue with a
      generic message, an empty string under `min1` the price message. */
  function StringIssues(fields: map<string, Json>, key: string, min1: bool): seq<Issue>
  {
    var f := Field(fields, key);
    if f.None? || !f.value.JStr? then [Issue(key, InvalidType)]
    else if min1 && |f.value.s| < 1 then [Issue(key, PriceMessage)]
    else []
  }

  /** The issues of a string-list field `key`: one issue with a generic message when the
      value is missing, not a list, or holds a non-string. */
  function ArrayIssues(fields: map<string, Json>, key: string): seq<Issue>
  {
    var f := Field(fields, key);
    if f.None? || !IsStringArray(f.value) then [Issue(key, InvalidType)] else []
  }

  /** All issues of an object against the product shape, field by field in schema order. */
  function FormIssues(fields: map<string, Json>, priceMin1: bool): seq<Issue>
  {
    StringIssues(fields, "sku", false)
    + StringIssues(fields, "name", false)
    + StringIssues(fields, "price", priceMin1)
    + StringIssues(fields, "category_id", false)
    + StringIssues(fields, "description", false)
    + ArrayIssues(fields, "sizes")
    + ArrayIssues(fields, "colors")
  }

  predicate HasString(fields: map<string, Json>, key: string)
  {
    key in fields && fields[key].JStr?
  }

  predicate HasStringArray(fields: map<string, Json>, key: string)
  {
    key in fields && IsStringArray(fields[key])
  }

  /** The product shape: five string fields and two lists of strings, with a non-empty
      price when `priceMin1` holds. Other keys may be present and are ignored. */
  predicate FitsShape(fields: map<string, Json>, priceMin1: bool)
  {
    && HasString(fields, "sku")
    && HasString(fields, "name")
    && HasString(fields, "price")
    && HasString(fields, "category_id")
    && HasString(fields, "description")
    && HasStringArray(fields, "sizes")
    && HasStringArray(fields, "colors")
    && (priceMin1 ==> |fields["price"].s| >= 1)
  }

  /** Parsing with the product shape; `priceMin1` is the client schema's price check.
      An input is accepted exactly when it is an object of the product shape, and then
      every one of the seven fields is carried over; a refusal lists at least one issue. */
  function ParseForm(v: Json, priceMin1: bool): (r: Result<ProductFormData, seq<Issue>>)
    ensures r.Failure? ==> |r.error| > 0
    ensures r.Success? <==> v.JObj? && FitsShape(v.fields, priceMin1)
    ensures r.Success? ==>
      && v.fields["sku"] == JStr(r.value.sku)
      && v.fields["name"] == JStr(r.value.name)
      && v.fields["price"] == JStr(r.value.price)
      && v.fields["category_id"] == JStr(r.value.categoryId)
      && v.fields["description"] == JStr(r.value.description)
      && IsStringArray(v.fields["sizes"]) && Strings(v.fields["sizes"]) == r.value.sizes
      && IsStringArray(v.fields["colors"]) && Strings(v.fields["colors"]) == r.value.colors
  {
    if !v.JObj? then Failure([Issue("", InvalidType)])
    else
      var issues := FormIssues(v.fields, priceMin1);
      if |issues| > 0 then Failure(issues)
      else
        assert StringIssues(v.fields, "price", priceMin1) == [];
        Success(ProductFormData(
          v.fields["sku"].s, v.fields["name"].s, v.fields["price"].s,
          v.fields["category_id"].s, v.fields["description"].s,
          Strings(v.fields["sizes"]), Strings(v.fields["colors"])))
  }

  /** The keys of the product shape. */
  const FormKeys: set<string> := {"sku", "name", "price", "category_id", "description", "sizes", "colors"}

  /** An accepted object and the parsed value, sent back as JSON, agree on every key of
      the product shape. */
  lemma ParsedFormAsJson(v: Json, priceMin1: bool)
    requires ParseForm(v, priceMin1).Success?
    ensures forall k :: k in FormKeys ==> k in v.fields && ToJson(ParseForm(v, priceMin1).value).fields[k] == v.fields[k]
  {
    var d := ParseForm(v, priceMin1).value;
    var fs := ToJson(d).fields;
    assert fs["sizes"].items == v.fields["sizes"].items;
    assert fs["colors"].items == v.fields["colors"].items;
  }

  /** `formSchema`, used by the client form. */
  function FormSchema(v: Json): Result<ProductFormData, seq<Issue>>
  {
    ParseForm(v, true)
  }

  /** `ProductForm`, used by the server functions. */
  function ServerProductForm(v: Json): Result<ProductFormData, seq<Issue>>
  {
    ParseForm(v, false)
  }

  /** The JSON object a typed form value is sent as. */
  function ToJson(d: ProductFormData): Json
  {
    JObj(map[
      "sku" := JStr(d.sku),
      "name" := JStr(d.name),
      "price" := JStr(d.price),
      "category_id" := JStr(d.categoryId),
      "description" := JStr(d.description),
      "sizes" := JArr(seq(|d.sizes|, i requires 0 <= i < |d.sizes| => JStr(d.sizes[i]))),
      "colors" := JArr(seq(|d.colors|, i requires 0 <= i < |d.colors| => JStr(d.colors[i])))])
  }

  /** The client schema accepts a form exactly when its price is non-empty; every other
      field may be any string or list of strings, empty ones included, and parsing gives
      the form back. The server-side form accepts every such form. */
  lemma FormSchemaOnForms(d: ProductFormData)
    ensures ServerProductForm(ToJson(d)) == Success(d)
    ensures d.price != "" ==> FormSchema(ToJson(d)) == Success(d)
    ensures d.price == "" ==> FormSchema(ToJson(d)) == Failure([Issue("price", PriceMessage)])
  {
    var fs := ToJson(d).fields;
    assert Strings(fs["sizes"]) == d.sizes;
    assert Strings(fs["colors"]) == d.colors;
    assert StringIssues(fs, "sku", false) == [];
    assert StringIssues(fs, "name", false) == [];
    assert StringIssues(fs, "category_id", false) == [];
    assert StringIssues(fs, "description", false) == [];
    assert ArrayIssues(fs, "sizes") == [];
    assert ArrayIssues(fs, "colors") == [];
    assert FormIssues(fs, true) == StringIssues(fs, "price", true);
  }

  /** A form with an empty price passes the server's validation although the client
      form refuses it. */
  lemma EmptyPriceOnlyServerAccepts()
    ensures var d := ProductFormData("", "", "", "", "", [], []);
      ServerProductForm(ToJson(d)).Success? && FormSchema(ToJson(d)).Failure?
  {
    FormSchemaOnForms(ProductFormData("", "", "", "", "", [], []));
  }

  /** The parsed value of `ProductInputSchema`. */
  datatype ProductInput = ProductInput(limit: real, categoryId: Option<string>)

  const DefaultLimit: real := 50.0

  /** `ProductInputSchema`: `limit` a number in [1, 100], 50 when absent; `categoryId` an
      optional string. */
  function ProductInputSchema(v: Json): (r: Result<ProductInput, seq<Issue>>)
    ensures r.Success? ==> 1.0 <= r.value.limit <= 100.0
  {
    if !v.JObj? then Failure([Issue("", InvalidType)])
    else
      var limit := Field(v.fields, "limit");
      var category := Field(v.fields, "categoryId");
      var limitIssues :=
        if limit.None? then []
        else if !limit.value.JNum? || limit.value.r < 1.0 || limit.value.r > 100.0
        then [Issue("limit", InvalidType)]
        else [];
      var categoryIssues :=
        if category.None? || category.value.JStr? then [] else [Issue("categoryId", InvalidType)];
      if |limitIssues + categoryIssues| > 0 then Failure(limitIssues + categoryIssues)
      else
        Success(ProductInput(
          if limit.None? then DefaultLimit else limit.value.r,
          if category.None? then None else Some(category.value.s)))
  }

  /** The limit is accepted exactly in [1, 100] and defaults to 50; the category id may be
      left out. */
  lemma ProductInputMeaning(limit: real, categoryId: string)
    ensures ProductInputSchema(JObj(map[])) == Success(ProductInput(50.0, None))
    ensures ProductInputSchema(JObj(map["limit" := JNum(limit)])).Success?
            <==> 1.0 <= limit <= 100.0
    ensures ProductInputSchema(JObj(map["categoryId" := JStr(categoryId)]))
            == Success(ProductInput(50.0, Some(categoryId)))
  {
    var m: map<string, Json> := map["limit" := JNum(limit)];
    assert Field(m, "categoryId") == None;
  }

  /** The parsed product search parameters. */
  datatype ProductSearchParams = ProductSearchParams(categoryId: Option<string>, prodSku: Option<string>)

  function OptionalString(fields: map<string, Json>, key: string): Result<Option<string>, seq<Issue>>
  {
    var f := Field(fields, key);
    if f.None? then Success(None)
    else if f.value.JStr? then Success(Some(f.value.s))
    else Failure([Issue(key, InvalidType)])
  }

  /** `SearchParams`: both keys are optional strings. */
  function SearchParams(v: Json): (r: Result<ProductSearchParams, seq<Issue>>)
    ensures r.Success? ==> v.JObj?
    ensures r.Success? && "category_id" !in v.fields ==> r.value.categoryId.None?
    ensures r.Success? && "prod_sku" !in v.fields ==> r.value.prodSku.None?
  {
    if !v.JObj? then Failure([Issue("", InvalidType)])
    else
      var c := OptionalString(v.fields, "category_id");
      var p := OptionalString(v.fields, "prod_sku");
      if c.Failure? || p.Failure? then
        Failure((if c.Failure? then c.error else []) + (if p.Failure? then p.error else []))
      else Success(ProductSearchParams(c.value, p.value))
  }

  /** Any combination of present or absent string parameters is accepted as given, and a
      parameter of another type is refused. */
  lemma SearchParamsMeaning(c: Option<string>, p: Option<string>, bad: Json)
    requires !bad.JStr?
    ensures var fields := (if c.Some? then map["category_id" := JStr(c.value)] else map[])
                        + (if p.Some? then map["prod_sku" := JStr(p.value)] else map[]);
      SearchParams(JObj(fields)) == Success(ProductSearchParams(c, p))
    ensures SearchParams(JObj(map["prod_sku" := bad])).Failure?
  {
    var fields: map<string, Json> := (if c.Some? then map["category_id" := JStr(c.value)] else map[])
                        + (if p.Some? then map["prod_sku" := JStr(p.value)] else map[]);
    assert Field(fields, "category_id") == if c.Some? then Some(JStr(c.value)) else None;
    assert Field(fields, "prod_sku") == if p.Some? then Some(JStr(p.value)) else None;
  }
}
