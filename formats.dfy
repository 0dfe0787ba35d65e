/** The format registry: the four export formats UMLet can produce and the
    validation of a requested format against what a builder can embed. */
module Formats {

  import opened Wrappers
  import opened Errors

  /** Export format name to the MIME type of the image it yields. */
  const ValidOutputFormats: map<string, string> := map[
    "png" := "image/png",
    "jpg" := "image/jpeg",
    "svg" := "image/svg+xml",
    "pdf" := "application/pdf"
  ]

  /** The part of a Sphinx builder the converter consults. */
  datatype Builder = Builder(name: string, supportedImageTypes: seq<string>)

  /** A format is acceptable for a builder when UMLet knows it and the builder
      can embed its MIME type. */
  predicate Acceptable(format: string, builder: Builder) {
    format in ValidOutputFormats && ValidOutputFormats[format] in builder.supportedImageTypes
  }

  /** `is_valid_format`: `None` passes through, an acceptable format is returned
      unchanged, anything else raises, naming the format (and the builder). */
  function IsValidFormat(format: Option<string>, builder: Builder): (r: Result<Option<string>, Error>)
    ensures r.Ok? <==> format.None? || Acceptable(format.value, builder)
    ensures r.Ok? ==> r.value == format
    ensures r.Err? ==> r.error.IsUMLetError()
    ensures r.Err? && format.value !in ValidOutputFormats ==> r.error == UnsupportedFormat(format.value)
    ensures r.Err? && format.value in ValidOutputFormats ==> r.error == InvalidForBuilder(format.value, builder.name)
  {
    match format
    case None => Ok(None)
    case Some(f) =>
      if f !in ValidOutputFormats then Err(UnsupportedFormat(f))
      else if ValidOutputFormats[f] !in builder.supportedImageTypes then Err(InvalidForBuilder(f, builder.name))
      else Ok(Some(f))
  }

  /** Validating an already validated format changes nothing. */
  lemma IsValidFormatIdempotent(format: Option<string>, builder: Builder)
    requires IsValidFormat(format, builder).Ok?
    ensures IsValidFormat(IsValidFormat(format, builder).value, builder) == IsValidFormat(format, builder)
  {
  }

  /** The registry is one-to-one: each MIME type belongs to one format only. */
  lemma ValidOutputFormatsInjective(f: string, g: string)
    requires f in ValidOutputFormats && g in ValidOutputFormats
    requires ValidOutputFormats[f] == ValidOutputFormats[g]
    ensures f == g
  {
  }

  /** `boolean_spec`: exactly "true" and "false" are accepted. */
  function BooleanSpec(argument: Option<string>): (r: Result<bool, Error>)
    ensures r.Ok? <==> argument == Some("true") || argument == Some("false")
    ensures r.Ok? ==> (r.value <==> argument == Some("true"))
    ensures r.Err? ==> r.error == UnexpectedBoolean
  {
    if argument == Some("true") then Ok(true)
    else if argument == Some("false") then Ok(false)
    else Err(UnexpectedBoolean)
  }

  /** The option text a boolean is written as. */
  function BooleanText(b: bool): string {
    if b then "true" else "false"
  }

  /** `boolean_spec` reads back every boolean written as option text. */
  lemma BooleanSpecRoundTrip(b: bool)
    ensures BooleanSpec(Some(BooleanText(b))) == Ok(b)
  {
  }
}
