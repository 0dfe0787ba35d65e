/** How Sphinx learns that an umlet image needs converting: the MIME type the
    converter guesses for a tagged node, and the conversion rules it offers. */
module Rules {

  import opened Wrappers
  import opened Errors
  import opened Formats
  import opened DocTree

  const UmletMimetype: string := "application/x-umlet"

  /** `conversion_rules`: source MIME type to target MIME type. */
  const ConversionRules: seq<(string, string)> := [
    (UmletMimetype, "image/png"),
    (UmletMimetype, "image/jpeg"),
    (UmletMimetype, "image/svg+xml"),
    (UmletMimetype, "application/pdf"),
    (UmletMimetype + "-png", "image/png"),
    (UmletMimetype + "-jpg", "image/jpeg"),
    (UmletMimetype + "-svg", "image/svg+xml"),
    (UmletMimetype + "-pdf", "application/pdf")
  ]

  /** Python truthiness of an optional string: `None` and "" are false. */
  predicate Truthy(s: Option<string>) {
    s.Some? && s.value != ""
  }

  /** "application/x-umlet", with "-<format>" appended when a format is given. */
  function MimetypeFor(format: Option<string>): (m: string)
    ensures UmletMimetype <= m
    ensures m == UmletMimetype <==> !Truthy(format)
  {
    if Truthy(format) then UmletMimetype + "-" + format.value else UmletMimetype
  }

  /** Reads the export format back out of an umlet MIME type: `Some(None)` for
      the bare type, `Some(Some(f))` for "application/x-umlet-f", `None` for any
      other MIME type. */
  function FormatOf(mimetype: string): (r: Option<Option<string>>)
    ensures r == Some(None) <==> mimetype == UmletMimetype
  {
    var prefix := UmletMimetype + "-";
    if mimetype == UmletMimetype then Some(None)
    else if prefix <= mimetype then Some(Some(mimetype[|prefix|..]))
    else None
  }

  /** The MIME type of a format names that format (and the bare type names none). */
  lemma MimetypeRoundTrip(format: Option<string>)
    requires format.None? || format.value != ""
    ensures FormatOf(MimetypeFor(format)) == Some(format)
  {
    if format.Some? {
      var m := MimetypeFor(format);
      var prefix := UmletMimetype + "-";
      assert m[..|prefix|] == prefix;
      assert m[|prefix|..] == format.value;
      assert m != UmletMimetype by { assert |m| > |UmletMimetype|; }
    }
  }

  /** Every conversion rule starts from an umlet MIME type; an explicit-format rule
      targets exactly the registry's MIME type for that format, and a bare rule
      targets one of the registry's MIME types. */
  lemma RulesFollowRegistry(i: nat)
    requires i < |ConversionRules|
    ensures FormatOf(ConversionRules[i].0).Some?
    ensures FormatOf(ConversionRules[i].0) == Some(None) ==> ConversionRules[i].1 in ValidOutputFormats.Values
    ensures forall f :: FormatOf(ConversionRules[i].0) == Some(Some(f)) ==>
      f in ValidOutputFormats && ConversionRules[i].1 == ValidOutputFormats[f]
  {
    var names := ["png", "jpg", "svg", "pdf"];
    var f := names[i % 4];
    assert ConversionRules[i].1 == ValidOutputFormats[f];
    if i < 4 {
      assert ConversionRules[i].0 == UmletMimetype;
    } else {
      assert ConversionRules[i].0 == MimetypeFor(Some(f));
      MimetypeRoundTrip(Some(f));
    }
  }

  /** Every registered format has an explicit-format rule, and the bare umlet
      MIME type has a rule to each registered MIME type. */
  lemma RulesCoverRegistry(f: string)
    requires f in ValidOutputFormats
    ensures (MimetypeFor(Some(f)), ValidOutputFormats[f]) in ConversionRules
    ensures (UmletMimetype, ValidOutputFormats[f]) in ConversionRules
  {
    var k := if f == "png" then 4 else if f == "jpg" then 5 else if f == "svg" then 6 else 7;
    assert ConversionRules[k].0 == MimetypeFor(Some(f));
    assert ConversionRules[k].1 == ValidOutputFormats[f];
    assert ConversionRules[k - 4] == (UmletMimetype, ValidOutputFormats[f]);
  }

  /** The converter's `__init__`: the builder's configured default format, validated. */
  function DefaultExportFormat(exportFormats: map<string, string>, builder: Builder): (r: Result<Option<string>, Error>)
    ensures builder.name !in exportFormats ==> r == Ok(None)
    ensures builder.name in exportFormats ==>
      (r.Ok? <==> Acceptable(exportFormats[builder.name], builder)) &&
      (r.Ok? ==> r.value == Some(exportFormats[builder.name]))
  {
    IsValidFormat(if builder.name in exportFormats then Some(exportFormats[builder.name]) else None, builder)
  }

  /** `guess_mimetypes`: a node tagged "umlet" has exactly one MIME type, naming its
      own validated format, else the builder default; an untagged node has none. */
  function GuessMimetypes(node: Element, builder: Builder, defaultFormat: Option<string>): (r: Result<seq<string>, Error>)
    reads node
    ensures "umlet" !in node.classes ==> r == Ok([])
    ensures "umlet" in node.classes ==> (r.Ok? <==> node.format.None? || Acceptable(node.format.value, builder))
    ensures "umlet" in node.classes && r.Err? ==> r == IsValidFormat(node.format, builder).PropagateFailure()
    ensures "umlet" in node.classes && r.Ok? ==>
      |r.value| == 1 &&
      FormatOf(r.value[0]) == Some(if Truthy(node.format) then node.format
                                   else if Truthy(defaultFormat) then defaultFormat else None)
  {
    if "umlet" in node.classes then
      var nodeFormat :- IsValidFormat(node.format, builder);
      var format := if Truthy(nodeFormat) then nodeFormat else defaultFormat;
      MimetypeRoundTrip(if Truthy(format) then format else None);
      Ok([MimetypeFor(format)])
    else
      Ok([])
  }

  /** With a validated default, every guessed MIME type is the source of a rule
      whose target the builder can embed, unless nothing at all is embeddable. */
  lemma GuessedMimetypeHasRule(node: Element, builder: Builder, defaultFormat: Option<string>, m: string)
    requires IsValidFormat(defaultFormat, builder).Ok?
    requires GuessMimetypes(node, builder, defaultFormat).Ok?
    requires m in GuessMimetypes(node, builder, defaultFormat).value
    requires exists f :: f in ValidOutputFormats && Acceptable(f, builder)
    ensures exists i :: 0 <= i < |ConversionRules| && ConversionRules[i].0 == m && ConversionRules[i].1 in builder.supportedImageTypes
  {
    var nodeFormat := IsValidFormat(node.format, builder).value;
    var format := if Truthy(nodeFormat) then nodeFormat else defaultFormat;
    assert m == MimetypeFor(format);
    var target: string;
    if Truthy(format) {
      target := ValidOutputFormats[format.value];
      RulesCoverRegistry(format.value);
    } else {
      var f :| f in ValidOutputFormats && Acceptable(f, builder);
      target := ValidOutputFormats[f];
      RulesCoverRegistry(f);
    }
    assert (m, target) in ConversionRules && target in builder.supportedImageTypes;
    var i :| 0 <= i < |ConversionRules| && ConversionRules[i] == (m, target);
  }
}
