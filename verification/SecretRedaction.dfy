/** Marker redaction against the marker detector: exactly which marker sets no redaction leaves behind. */
module SecretRedaction {
  import opened Wrappers
  import opened MarkerReplacement
  import opened RedactionStream
  import opened SpanAttributes
  import opened Substrings

  // ---------------------------------------------------------------- redaction

  /** The set may be iterated in any order.  If no probe keeps a marker, no text does. */
  method RedactSecretsInOutput(output: string, markers: set<string>) returns (redacted: string)
    ensures exists order :: Enumerates(order, markers) && redacted == RedactInOrder(output, order)
    ensures SafeAlone(markers) ==> !ContainsMarker(redacted, markers)
  {
    redacted := output;
    ghost var order: seq<string> := [];
    var todo := markers;
    while todo != {}
      invariant Enumerates(order, markers - todo) && todo <= markers
      invariant redacted == RedactInOrder(output, order)
      decreases todo
    {
      var marker :| marker in todo;
      if marker != "" {
        redacted := Replace(redacted, marker);
      }
      RedactSnoc(output, order, marker);
      todo := todo - {marker};
      order := order + [marker];
    }
    assert Enumerates(order, markers);
    if SafeAlone(markers) { NoneLeft(output, order, markers); }
  }

  function RedactAttributes(attributes: Attributes, order: seq<string>): Attributes {
    map name | name in attributes ::
      match attributes[name]
      case StrValue(s) => StrValue(RedactInOrder(s, order))
      case other => other
  }

  // ---------------------------------------------------------------- the detector

  datatype Surface = StaticPromptCachePrefix | SpanAttributesSurface | LogRecords | AuditLedgerEntry

  datatype Violation = Violation(surface: Surface, detectedAt: string)

  predicate LeakyValue(v: AttributeValue, markers: set<string>) {
    v.StrValue? && ContainsMarker(v.s, markers)
  }

  function ValidateNoSecretInStaticPrefix(prefix: string, markers: set<string>): Option<Violation> {
    if ContainsMarker(prefix, markers) then Some(Violation(StaticPromptCachePrefix, "prompt_cache_prefix")) else None
  }

  function ValidateNoSecretInSpanAttributes(attributes: Attributes, markers: set<string>): Option<Violation> {
    if attributes.Keys * SENSITIVE_DATA_EXCLUSIONS != {}
       || exists name | name in attributes :: LeakyValue(attributes[name], markers)
    then Some(Violation(SpanAttributesSurface, "span_attributes"))
    else None
  }

  function ValidateNoSecretInAuditLedgerEntry(entry: Attributes, markers: set<string>): Option<Violation> {
    if exists name | name in entry :: LeakyValue(entry[name], markers)
    then Some(Violation(AuditLedgerEntry, "audit_ledger_entry"))
    else None
  }

  /** What the detectors report, spelled out: a non-empty marker somewhere in a string, or an attribute name
      that must not be there. */
  lemma DetectorsReport(text: string, attributes: Attributes, markers: set<string>)
    ensures ValidateNoSecretInStaticPrefix(text, markers)
         == if exists m | m in markers :: m != "" && Contains(text, m)
            then Some(Violation(StaticPromptCachePrefix, "prompt_cache_prefix")) else None
    ensures ValidateNoSecretInSpanAttributes(attributes, markers)
         == (if || "sandbox_resident_filesystem_state" in attributes
                || "sandbox_resident_screenshot_context" in attributes
                || "tool_io_raw_content" in attributes || "secret_value" in attributes
                || exists name, m | name in attributes && m in markers ::
                     attributes[name].StrValue? && m != "" && Contains(attributes[name].s, m)
             then Some(Violation(SpanAttributesSurface, "span_attributes")) else None)
    ensures ValidateNoSecretInAuditLedgerEntry(attributes, markers)
         == (if exists name, m | name in attributes && m in markers ::
                  attributes[name].StrValue? && m != "" && Contains(attributes[name].s, m)
             then Some(Violation(AuditLedgerEntry, "audit_ledger_entry")) else None)
  {
    hide Contains;
    ExcludedNames(attributes);
    LeakyIff(attributes, markers);
    hide LeakyValue;
  }

  lemma ExcludedNames(attributes: Attributes)
    ensures attributes.Keys * SENSITIVE_DATA_EXCLUSIONS != {}
            <==> || "sandbox_resident_filesystem_state" in attributes
                 || "sandbox_resident_screenshot_context" in attributes
                 || "tool_io_raw_content" in attributes || "secret_value" in attributes
  {
    DisjointIff(attributes.Keys, SENSITIVE_DATA_EXCLUSIONS);
  }

  lemma LeakyIff(attributes: Attributes, markers: set<string>)
    ensures (exists name | name in attributes :: LeakyValue(attributes[name], markers))
            <==> exists name, m | name in attributes && m in markers ::
                   attributes[name].StrValue? && m != "" && Contains(attributes[name].s, m)
  {
    hide Contains;
    if exists name | name in attributes :: LeakyValue(attributes[name], markers) {
      var name :| name in attributes && LeakyValue(attributes[name], markers);
      var m :| m in markers && m != "" && Contains(attributes[name].s, m);
    }
    if exists name, m | name in attributes && m in markers ::
         attributes[name].StrValue? && m != "" && Contains(attributes[name].s, m)
    {
      var name, m :| name in attributes && m in markers && attributes[name].StrValue? && m != ""
                     && Contains(attributes[name].s, m);
      assert LeakyValue(attributes[name], markers);
    }
  }

  // ---------------------------------------------------------------- redaction against the detector

  /** What redaction produces the detector accepts, and redacting it again, in any order, changes
      nothing. */
  lemma RedactedTextAccepted(t: string, order: seq<string>, again: seq<string>, markers: set<string>)
    requires Enumerates(order, markers) && Enumerates(again, markers) && SafeAlone(markers)
    ensures ValidateNoSecretInStaticPrefix(RedactInOrder(t, order), markers) == None
    ensures RedactInOrder(RedactInOrder(t, order), again) == RedactInOrder(t, order)
  {
    NoneLeft(t, order, markers);
    MarkerFreeUnchanged(RedactInOrder(t, order), again);
  }

  /** And for no other markers: the detector accepts whatever redaction produces, from every text and in
      every order, if and only if no probe keeps a marker. */
  lemma AcceptedIffSafe(markers: set<string>)
    ensures (forall t: string, order: seq<string> | Enumerates(order, markers) ::
               ValidateNoSecretInStaticPrefix(RedactInOrder(t, order), markers) == None)
            <==> SafeAlone(markers)
  {
    hide RedactInOrder;
    hide ContainsMarker;
    hide SafeAlone;
    SafeAloneIff(markers);
  }

  lemma DisjointIff(a: set<string>, b: set<string>)
    ensures a * b == {} <==> forall x | x in a :: x !in b
  {
    if a * b == {} {
      forall x | x in a ensures x !in b { assert x in b ==> x in a * b; }
    } else {
      var x :| x in a * b;
      assert x in a && x in b;
    }
  }

  /** Redacted span attributes are accepted exactly when no attribute name is excluded, redacted ledger
      entries always, and redaction keeps every name and every value that is not a string. */
  lemma RedactedAttributesAccepted(attributes: Attributes, order: seq<string>, markers: set<string>)
    requires Enumerates(order, markers) && SafeAlone(markers)
    ensures ValidateNoSecretInSpanAttributes(RedactAttributes(attributes, order), markers) == None
            <==> forall name | name in attributes.Keys :: name !in SENSITIVE_DATA_EXCLUSIONS
    ensures ValidateNoSecretInAuditLedgerEntry(RedactAttributes(attributes, order), markers) == None
    ensures RedactAttributes(attributes, order).Keys == attributes.Keys
    ensures forall name | name in attributes :: var v, r := attributes[name], RedactAttributes(attributes, order)[name];
              r == if v.StrValue? then StrValue(RedactInOrder(v.s, order)) else v
  {
    hide RedactInOrder;
    hide ContainsMarker;
    hide SafeAlone;
    var out := RedactAttributes(attributes, order);
    assert out.Keys == attributes.Keys;
    DisjointIff(attributes.Keys, SENSITIVE_DATA_EXCLUSIONS);
    forall name | name in out ensures !LeakyValue(out[name], markers) {
      if attributes[name].StrValue? {
        NoneLeft(attributes[name].s, order, markers);
      }
    }
  }
}
