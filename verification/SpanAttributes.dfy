/** Attribute values of sandbox spans. */
module SpanAttributes {

  /** `str | int | float | bool`. */
  datatype AttributeValue = StrValue(s: string) | IntValue(n: int) | FloatValue(x: real) | BoolValue(b: bool)

  type Attributes = map<string, AttributeValue>

  const SENSITIVE_DATA_EXCLUSIONS: set<string> := {
    "sandbox_resident_filesystem_state", "sandbox_resident_screenshot_context", "tool_io_raw_content", "secret_value"}
}
