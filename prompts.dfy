/** The `PROMPTS` table of the generate endpoint and the lookup that picks the
    system instruction for a request's `mode`. */
module Prompts {
  import opened JsValues

  const EmailInstruction: string := "Write a professional email based on the following requirements:"
  const BlogPostInstruction: string := "Write an engaging blog post based on the following topic:"
  const SocialMediaInstruction: string := "Create a compelling social media caption based on:"
  const CodeCommentsInstruction: string := "Generate clear and helpful code comments for:"
  const ProductDescriptionInstruction: string := "Write a persuasive product description for:"

  /** The own properties of the `PROMPTS` object literal. */
  const Table: map<string, string> := map[
    "email" := EmailInstruction,
    "blog-post" := BlogPostInstruction,
    "social-media" := SocialMediaInstruction,
    "code-comments" := CodeCommentsInstruction,
    "product-description" := ProductDescriptionInstruction]

  /** The properties every object literal inherits from `Object.prototype`. Each holds
      a function, or the prototype object itself for `__proto__`: all of them truthy. */
  const InheritedNames: set<string> := {
    "constructor", "hasOwnProperty", "isPrototypeOf", "propertyIsEnumerable",
    "toLocaleString", "toString", "valueOf", "__proto__",
    "__defineGetter__", "__defineSetter__", "__lookupGetter__", "__lookupSetter__"}

  /** What a property read on `PROMPTS` yields. */
  datatype Property = Own(text: string) | Inherited(name: string) | Missing

  /** `PROMPTS[key]`: own properties first, then the prototype chain. */
  function LookupAsWritten(key: string): (r: Property)
    ensures key in Table ==> r == Own(Table[key])
    ensures key !in Table && key in InheritedNames ==> r == Inherited(key)
    ensures r.Missing? <==> key !in Table && key !in InheritedNames
    ensures r.Own? ==> r.text != ""
  {
    if key in Table then Own(Table[key])
    else if key in InheritedNames then Inherited(key)
    else Missing
  }

  /** The instruction lookup as written, falling back to the email entry: only an
      absent property falls back, since every property that is present is truthy. */
  function SystemPromptAsWritten(mode: Json): (r: Property)
    ensures r.Own? || r.Inherited?
  {
    match LookupAsWritten(PropertyKey(mode))
    case Missing => Own(EmailInstruction)
    case found => found
  }

  /** The modes the table knows. */
  const KnownModes: set<string> := {"email", "blog-post", "social-media", "code-comments", "product-description"}

  /** The system instruction for a mode: each known mode gets its own instruction and
      every other value, missing or empty included, gets the email instruction. */
  function SystemPrompt(mode: Json): (r: string)
    ensures mode == Str("email") ==> r == EmailInstruction
    ensures mode == Str("blog-post") ==> r == BlogPostInstruction
    ensures mode == Str("social-media") ==> r == SocialMediaInstruction
    ensures mode == Str("code-comments") ==> r == CodeCommentsInstruction
    ensures mode == Str("product-description") ==> r == ProductDescriptionInstruction
    ensures !(mode.Str? && mode.s in KnownModes) ==> r == EmailInstruction
    ensures r != ""
  {
    var key := PropertyKey(mode);
    if key in Table then Table[key] else EmailInstruction
  }

  /** The instructions are five different strings, so the mode is recoverable from the
      instruction for every known mode. */
  lemma InstructionsDistinct(a: string, b: string)
    requires a in KnownModes && b in KnownModes && a != b
    ensures SystemPrompt(Str(a)) != SystemPrompt(Str(b))
  {
  }

  /** A mode that is not a string (absent, `null`, a boolean or a number) never names a
      property of the table, as written or intended. */
  lemma NonStringModeIsEmail(mode: Json)
    requires !mode.Str?
    ensures SystemPromptAsWritten(mode) == Own(EmailInstruction)
    ensures SystemPrompt(mode) == EmailInstruction
  {
    var key := PropertyKey(mode);
    assert key !in Table && key !in InheritedNames by {
      if key !in {"undefined", "null", "true", "false"} {
        assert key[0] == '-' || '0' <= key[0] <= '9';
        forall k | k in Table || k in InheritedNames ensures k != key {
          assert k[0] != '-' && !('0' <= k[0] <= '9');
        }
      }
    }
  }

  /** The code agrees with the intended total lookup exactly when the mode's key is not
      a name inherited from `Object.prototype`. */
  lemma AsWrittenAgreesOffPrototype(mode: Json)
    ensures SystemPromptAsWritten(mode) == Own(SystemPrompt(mode)) <==> PropertyKey(mode) !in InheritedNames
  {
    var key := PropertyKey(mode);
    assert key in InheritedNames ==> key !in Table;
  }

  /** The discrepancy: a mode naming a property of `Object.prototype`, such as
      `"toString"`, yields that inherited property instead of the email instruction. */
  lemma InheritedModeEscapesDefault(k: string)
    requires k in InheritedNames
    ensures SystemPromptAsWritten(Str(k)) == Inherited(k)
    ensures SystemPrompt(Str(k)) == EmailInstruction
  {
    assert k !in Table;
  }
}
