/** The fixed names of a project's layout. */
module Config {

  /** The main document, a direct child of the project root. */
  const MAIN_TEX_FILE: string := "main.tex"

  /** The main document's base name, as passed to `makeglossaries` and `biber`. */
  const MAIN_FILE_NAME: string := "main"

  /** The typeset output, inside the output directory. */
  const MAIN_PDF_FILE: string := "main.pdf"

  /** The output directory, a direct child of the project root. */
  const OUTPUT_DIRECTORY: string := "out"
}
