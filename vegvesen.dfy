/**
 * The registry lookup client after its one HTTP request: the status check,
 * the extraction of make, model, first-registration year and colour from
 * the nested response body, and the errors it throws.
 */
module Vegvesen {
  import opened Wrappers
  import opened Json
  import Text

  /** What a missing make or model is recorded as. */
  const Unknown: string := "Ukjent"

  /**
   * The part of the registry's HTTP response the client reads: response.ok,
   * and the body as response.json() parses it (None when that throws).
   */
  datatype RegistryResponse = RegistryResponse(ok: bool, body: Option<Json>)

  /** The normalised record; color null is None. */
  datatype VegvesenCar = VegvesenCar(make: string, model: string, year: int, color: Option<string>)

  /** The ways a lookup fails, in the order the client checks them. */
  datatype LookupError =
    | NotFound                  // the response is not ok
    | MalformedBody             // response.json() throws
    | MissingFirstRegistration  // no first-registration date
    | YearNotNumeric            // the year prefix reads as NaN
    | MissingBodywork           // tekniskKjoretoy has no karosseri: reading its farge throws

  /**
   * `inputRegNr.trim().toUpperCase()`: the key the registry is asked for. It
   * is also the trimmed upper case, so it neither starts nor ends with white space.
   */
  function RegNrKey(input: string): (key: string)
    ensures key == Text.Trim(Text.ToUpper(input))
    ensures key == [] || (!Text.IsSpace(key[0]) && !Text.IsSpace(key[|key| - 1]))
  {
    Text.TrimUpperCommute(input);
    Text.ToUpper(Text.Trim(input))
  }

  /**
   * Input that starts or ends with white space upper-cases to something other
   * than its lookup key.
   */
  lemma UntrimmedIsNotKey(input: string)
    requires input != [] && (Text.IsSpace(input[0]) || Text.IsSpace(input[|input| - 1]))
    ensures Text.ToUpper(input) != RegNrKey(input)
  {
    Text.ToUpperHead(input);
    Text.ToUpperLast(input);
  }

  /** Normalising an already normalised registration number changes nothing. */
  lemma RegNrKeyIdempotent(s: string)
    ensures RegNrKey(RegNrKey(s)) == RegNrKey(s)
  {
    var t := Text.Trim(s);
    Text.TrimUpperCommute(t);
    Text.TrimIdempotent(s);
    Text.ToUpperIdempotent(t);
  }

  /**
   * Number(text) on the few characters of a date prefix: surrounding white
   * space is ignored, the empty text is 0, and an optionally signed run of
   * decimal digits is its value. Everything else is NaN (None).
   */
  function NumberOfText(s: string): (r: Option<int>)
    ensures s != [] && Text.AllDigits(s) ==> r == Some(Text.DecimalValue(s))
  {
    Text.TrimDigits(s);
    var t := Text.Trim(s);
    if t == [] then Some(0)
    else if t[0] == '-' && |t| > 1 && Text.AllDigits(t[1..]) then Some(0 - Text.DecimalValue(t[1..]))
    else if t[0] == '+' && |t| > 1 && Text.AllDigits(t[1..]) then Some(Text.DecimalValue(t[1..]))
    else if Text.AllDigits(t) then Some(Text.DecimalValue(t))
    else None
  }

  /** `data?.tekniskKjoretoy` */
  function Technical(data: Json): Option<Json> {
    Get(data, "tekniskKjoretoy")
  }

  /** `data?.registrering?.forstegangsregistrering` */
  function FirstRegistration(data: Json): Option<Json> {
    Member(Get(data, "registrering"), "forstegangsregistrering")
  }

  /** `String(firstRegDate).slice(0, 4)` */
  function YearText(date: Json): string {
    Text.Prefix(ToJsString(date), 4)
  }

  /** `value ?? fallback` for a text field. */
  function TextOr(o: Option<Json>, fallback: string): (r: string)
    ensures Nullish(o) ==> r == fallback
    ensures o.Some? && o.value.JString? ==> r == o.value.s
  {
    if Nullish(o) then fallback else ToJsString(o.value)
  }

  /** Reading `technical?.karosseri.farge` throws: technical is there but has no karosseri. */
  predicate BodyworkMissing(technical: Option<Json>) {
    !Nullish(technical) && Nullish(Get(technical.value, "karosseri"))
  }

  /** `technical?.karosseri.farge ?? null`, where reading it does not throw. */
  function Color(technical: Option<Json>): (r: Option<string>)
    requires !BodyworkMissing(technical)
    ensures technical.None? ==> r.None?
    ensures r.None? <==> Nullish(Member(Member(technical, "karosseri"), "farge"))
  {
    var farge := Member(Member(technical, "karosseri"), "farge");
    if Nullish(farge) then None else Some(ToJsString(farge.value))
  }

  /** The client's handling of the registry's response. */
  function ReadResponse(resp: RegistryResponse): (r: Result<VegvesenCar, LookupError>)
    ensures !resp.ok ==> r == Failure(NotFound)
    ensures resp.ok && resp.body.None? ==> r == Failure(MalformedBody)
    ensures resp.ok && resp.body.Some? && !Truthy(FirstRegistration(resp.body.value)) ==>
      r == Failure(MissingFirstRegistration)
    ensures (&& resp.ok && resp.body.Some? && Truthy(FirstRegistration(resp.body.value))
             && NumberOfText(YearText(FirstRegistration(resp.body.value).value)).None?) ==>
      r == Failure(YearNotNumeric)
    ensures (&& resp.ok && resp.body.Some? && Truthy(FirstRegistration(resp.body.value))
             && NumberOfText(YearText(FirstRegistration(resp.body.value).value)).Some?
             && BodyworkMissing(Technical(resp.body.value))) ==>
      r == Failure(MissingBodywork)
    ensures r.Success? <==>
      (&& resp.ok && resp.body.Some?
       && Truthy(FirstRegistration(resp.body.value))
       && NumberOfText(YearText(FirstRegistration(resp.body.value).value)).Some?
       && !BodyworkMissing(Technical(resp.body.value)))
    ensures r.Success? ==>
      var technical := Technical(resp.body.value);
      && r.value.make == TextOr(Member(technical, "merke"), Unknown)
      && r.value.model == TextOr(Member(technical, "handelsbetegnelse"), Unknown)
      && Some(r.value.year) == NumberOfText(YearText(FirstRegistration(resp.body.value).value))
      && r.value.color == Color(technical)
  {
    if !resp.ok then Failure(NotFound)
    else if resp.body.None? then Failure(MalformedBody)
    else
      var data := resp.body.value;
      var technical := Technical(data);
      var make := TextOr(Member(technical, "merke"), Unknown);
      var model := TextOr(Member(technical, "handelsbetegnelse"), Unknown);
      var firstRegDate := FirstRegistration(data);
      if !Truthy(firstRegDate) then Failure(MissingFirstRegistration)
      else
        match NumberOfText(YearText(firstRegDate.value))
        case None => Failure(YearNotNumeric)
        case Some(year) =>
          if BodyworkMissing(technical) then Failure(MissingBodywork)
          else Success(VegvesenCar(make, model, year, Color(technical)))
  }

  /**
   * carLookUp. The HTTP request is the parameter `registry`, the answer it
   * gives for the key in the request's URL.
   */
  function CarLookUp(inputRegNr: string, registry: string -> RegistryResponse): (r: Result<VegvesenCar, LookupError>)
    ensures var resp := registry(RegNrKey(inputRegNr));
      && (r == Failure(NotFound) <==> !resp.ok)
      && (r == Failure(MalformedBody) <==> resp.ok && resp.body.None?)
      && (r.Success? ==> resp.ok && resp.body.Some? && Truthy(FirstRegistration(resp.body.value)))
  {
    ReadResponse(registry(RegNrKey(inputRegNr)))
  }

  // Properties of the client

  /** The lookup depends on the registry only through its answer for trim(upper(input)). */
  lemma LookupAsksNormalisedKey(input: string, registry: string -> RegistryResponse, other: string -> RegistryResponse)
    requires registry(RegNrKey(input)) == other(RegNrKey(input))
    ensures CarLookUp(input, registry) == CarLookUp(input, other)
  {
  }

  /** A date beginning with four digits gives the year those digits spell. */
  lemma YearFromDate(resp: RegistryResponse, date: string)
    requires resp.ok && resp.body.Some? && FirstRegistration(resp.body.value) == Some(JString(date))
    requires |date| >= 4 && Text.AllDigits(date[..4])
    requires !BodyworkMissing(Technical(resp.body.value))
    ensures ReadResponse(resp).Success? && ReadResponse(resp).value.year == Text.DecimalValue(date[..4])
  {
    assert YearText(JString(date)) == date[..4];
  }

  /** A text of digits reads as the number it spells. */
  lemma DigitPrefixYear(date: string)
    requires |date| >= 4 && Text.AllDigits(date[..4])
    ensures NumberOfText(YearText(JString(date))) == Some(Text.DecimalValue(date[..4]))
  {
    assert YearText(JString(date)) == date[..4];
  }

  /** A prefix that starts with anything but white space, a sign or a digit is NaN. */
  lemma NonNumericTextIsNaN(s: string)
    requires s != [] && !Text.IsSpace(s[0]) && !Text.IsDigit(s[0]) && s[0] != '-' && s[0] != '+'
    ensures NumberOfText(s) == None
  {
    assert Text.TrimStart(s) == s;
    assert Text.Trim(s) != [] && Text.Trim(s)[0] == s[0];
  }

  /** "20180315" and "2018-03-15" both give 2018; a date that starts with a letter fails. */
  lemma YearExamples(date: string)
    requires date == "20180315" || date == "2018-03-15" || date == "ukjent"
    ensures date != "ukjent" ==> NumberOfText(YearText(JString(date))) == Some(2018)
    ensures date == "ukjent" ==> NumberOfText(YearText(JString(date))) == None
  {
    var prefix := YearText(JString(date));
    if date == "ukjent" {
      assert prefix == "ukje";
      NonNumericTextIsNaN(prefix);
    } else {
      assert date[..4] == "2018";
      assert Text.DecimalValue("2018") == 2018 by {
        assert "2018"[..3] == "201" && "201"[..2] == "20" && "20"[..1] == "2" && "2"[..0] == "";
      }
      DigitPrefixYear(date);
    }
  }

  /**
   * Only the status, the body, the date and the bodywork decide whether a
   * lookup succeeds: make and model never cause a failure.
   */
  lemma SuccessIgnoresMakeAndModel(a: RegistryResponse, b: RegistryResponse)
    requires a.ok == b.ok && a.body.Some? == b.body.Some?
    requires a.body.Some? ==> FirstRegistration(a.body.value) == FirstRegistration(b.body.value)
    requires a.body.Some? ==> BodyworkMissing(Technical(a.body.value)) == BodyworkMissing(Technical(b.body.value))
    ensures ReadResponse(a).Success? == ReadResponse(b).Success?
  {
  }

  /**
   * The colour is the string at karosseri.farge, and null when farge is
   * missing or null or when there is no tekniskKjoretoy at all.
   */
  lemma ColorOfBodywork(fields: map<string, Json>, bodywork: map<string, Json>)
    requires "karosseri" in fields && fields["karosseri"] == JObject(bodywork)
    ensures !BodyworkMissing(Some(JObject(fields))) && !BodyworkMissing(None)
    ensures "farge" in bodywork && bodywork["farge"].JString? ==> Color(Some(JObject(fields))) == Some(bodywork["farge"].s)
    ensures "farge" !in bodywork || bodywork["farge"].JNull? ==> Color(Some(JObject(fields))) == None
    ensures Color(None) == None
  {
  }

  /** Missing make and model become "Ukjent". */
  lemma MissingMakeModelUnknown(resp: RegistryResponse)
    requires ReadResponse(resp).Success?
    requires Nullish(Member(Technical(resp.body.value), "merke"))
    requires Nullish(Member(Technical(resp.body.value), "handelsbetegnelse"))
    ensures ReadResponse(resp).value.make == Unknown && ReadResponse(resp).value.model == Unknown
  {
  }
}
