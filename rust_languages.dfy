/** The languages the Rust prototype's command line accepts, with the names they print as. */
module RustLanguages {
  import opened Strings

  /** The `SupportedLanguage` value enum. */
  datatype SupportedLanguage = Python | TypeScript | Rust | Cpp

  /** The `Display` implementation: the lower-case name the language prints as. */
  function Display(language: SupportedLanguage): (r: string)
    ensures |r| > 0 && AllLower(r)
  {
    match language
    case Python => "python"
    case TypeScript => "typescript"
    case Rust => "rust"
    case Cpp => "cpp"
  }

  /** Distinct languages print as distinct names, so a name identifies its language. */
  lemma DisplayInjective(a: SupportedLanguage, b: SupportedLanguage)
    ensures Display(a) == Display(b) <==> a == b
  {
  }
}
