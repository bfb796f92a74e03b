/** The `Attribute` value object of barentsz/_attribute.py. Its constructor
    only stores its arguments and nothing updates them afterwards, so it is
    a datatype; its properties and `__eq__` are functions of it. */
module Attributes {
  import opened Wrappers
  import opened Strings
  import opened Host

  /** One module-level attribute found by the scanner. `valueType` is the
      `type_` field (the type of `value`, by name) and `sourceModule` is
      `module`, which callers may also leave as `None`. */
  datatype Attribute = Attribute(
    name: string,
    valueType: string,
    value: PyObject,
    doc: Option<string>,
    comment: Option<string>,
    hint: Option<string>,
    sourceModule: Option<Module>,
    assignedValue: string,
    line: string,
    lineNumber: int)

  /** `is_private`: the name is marked private by a leading underscore. */
  function IsPrivate(a: Attribute): (r: bool)
    ensures r <==> |a.name| > 0 && a.name[0] == '_'
  {
    StartsWith(a.name, "_")
  }

  /** `is_public`: the negation of `is_private`. */
  function IsPublic(a: Attribute): (r: bool)
    ensures r <==> a.name == [] || a.name[0] != '_'
  {
    !IsPrivate(a)
  }

  predicate IsLowerChar(c: char) { 'a' <= c <= 'z' }
  predicate IsUpperChar(c: char) { 'A' <= c <= 'Z' }

  /** `str.isupper()` (for ASCII letters): some character is an upper-case
      letter and none is a lower-case one. */
  function IsUpper(s: string): (r: bool)
    ensures r <==> (exists i :: 0 <= i < |s| && IsUpperChar(s[i]))
                   && (forall i :: 0 <= i < |s| ==> !IsLowerChar(s[i]))
  {
    UpperFrom(s, 0, false)
  }

  /** The scan behind `IsUpper`: stop at the first lower-case letter and
      remember whether a cased letter has been seen. */
  function UpperFrom(s: string, i: nat, cased: bool): (r: bool)
    requires i <= |s|
    ensures r <==> (cased || exists j :: i <= j < |s| && IsUpperChar(s[j]))
                   && (forall j :: i <= j < |s| ==> !IsLowerChar(s[j]))
    decreases |s| - i
  {
    if i == |s| then cased
    else if IsLowerChar(s[i]) then false
    else UpperFrom(s, i + 1, cased || IsUpperChar(s[i]))
  }

  /** `is_constant`: the name is written in capitals, as `ATTR` is and
      `attr` is not. */
  function IsConstant(a: Attribute): (r: bool)
    ensures r ==> exists i :: 0 <= i < |a.name| && IsUpperChar(a.name[i])
    ensures r <==> IsUpper(a.name)
  {
    IsUpper(a.name)
  }

  /** What `__eq__` compares with: another attribute or any other object. */
  datatype Comparand = AnAttribute(attribute: Attribute) | NotAnAttribute(obj: PyObject)

  /** The attribute with every field that `__eq__` ignores set to a fixed
      value: two attributes are equal exactly when these agree. */
  function EqualityKey(a: Attribute): Attribute
  {
    a.(doc := None, comment := None, hint := None, assignedValue := "", line := "")
  }

  /** `__eq__`: an attribute equals another attribute with the same name,
      value, type, module and line number; it never equals anything else. */
  function Equals(a: Attribute, other: Comparand): (r: bool)
    ensures r <==> other.AnAttribute? && EqualityKey(a) == EqualityKey(other.attribute)
  {
    && other.AnAttribute?
    && other.attribute.name == a.name
    && other.attribute.value == a.value
    && other.attribute.valueType == a.valueType
    && other.attribute.sourceModule == a.sourceModule
    && other.attribute.lineNumber == a.lineNumber
  }

  /** Changing the fields `__eq__` ignores never changes its answer. */
  lemma IgnoredFieldsDoNotMatter(a: Attribute, b: Attribute, doc: Option<string>,
                                 comment: Option<string>, hint: Option<string>,
                                 assignedText: string, line: string)
    ensures Equals(a, AnAttribute(b))
        == Equals(a.(doc := doc, comment := comment, hint := hint,
                     assignedValue := assignedText, line := line), AnAttribute(b))
  {
  }

  /** `__eq__` is reflexive, symmetric and transitive, so two attributes
      built from the same arguments are equal. */
  lemma EqualsIsEquivalence(a: Attribute, b: Attribute, c: Attribute)
    ensures Equals(a, AnAttribute(a))
    ensures Equals(a, AnAttribute(b)) == Equals(b, AnAttribute(a))
    ensures Equals(a, AnAttribute(b)) && Equals(b, AnAttribute(c)) ==> Equals(a, AnAttribute(c))
  {
  }
}
