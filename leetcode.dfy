/** The problem record returned by the LeetCode GraphQL `question` query. */
module LeetCode {

  datatype CodeSnippet = CodeSnippet(lang: string, langSlug: string, code: string)

  /** Also the `Question` struct of the Rust prototype, which has the same fields. */
  datatype Problem = Problem(
    questionId: string,
    questionFrontendId: string,
    title: string,
    titleSlug: string,
    content: string,
    difficulty: string,
    codeSnippets: seq<CodeSnippet>,
    exampleTestcases: string,
    sampleTestCase: string,
    metaData: string)
}
