/** The identifier case each language's naming conventions use, in the Rust prototype. */
module RustCase {
  import RustLanguages

  /**
   * The languages `get_case_by_language` distinguishes. The match names twelve variants,
   * eight more than `SupportedLanguage` has, so this is its own enumeration here.
   */
  datatype CaseLanguage = Python | Cpp | Rust | Ruby | Php | Java | JavaScript | TypeScript | Go | Swift | Kotlin | Scala

  /** The `convert_case` cases the function returns. */
  datatype Case = Snake | Camel

  /** get_case_by_language. */
  function CaseFor(language: CaseLanguage): (r: Case)
    ensures r == Snake <==> language in {CaseLanguage.Python, CaseLanguage.Cpp, CaseLanguage.Rust, CaseLanguage.Ruby, CaseLanguage.Php}
    ensures r == Camel <==> language in {CaseLanguage.Java, CaseLanguage.JavaScript, CaseLanguage.TypeScript, CaseLanguage.Go,
                                         CaseLanguage.Swift, CaseLanguage.Kotlin, CaseLanguage.Scala}
  {
    match language
    case Python | Cpp | Rust | Ruby | Php => Snake
    case Java | JavaScript | TypeScript | Go | Swift | Kotlin | Scala => Camel
  }

  /** A supported language as the variant of the same name. */
  function AsCaseLanguage(language: RustLanguages.SupportedLanguage): (r: CaseLanguage)
  {
    match language
    case Python => CaseLanguage.Python
    case TypeScript => CaseLanguage.TypeScript
    case Rust => CaseLanguage.Rust
    case Cpp => CaseLanguage.Cpp
  }

  /** Of the supported languages only TypeScript uses camelCase names. */
  lemma SupportedCases(language: RustLanguages.SupportedLanguage)
    ensures CaseFor(AsCaseLanguage(language)) == Camel <==> language == RustLanguages.TypeScript
  {
  }
}
