/** The errors the core throws (src/utils/errors.ts), as values. */
module Errors {
  datatype Error =
    | BlockNotFound(blockName: string)
    | ProfileNotFound(profileName: string)
    | ProjectNotInitialized
      /** A file whose YAML front matter does not parse (gray-matter throws). */
    | MalformedFile(path: string)
}
