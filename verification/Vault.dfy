/** Notes as packages/core/src/types.ts and vault.ts have them. */
module Vault {
  import opened Text

  /** A missing or non-string `name` or `status` is the empty string; a missing list is empty. */
  datatype Frontmatter = Frontmatter(
    name: string, status: string, audience: seq<string>,
    provenance: seq<string>, supersedes: seq<string>, contradicts: seq<string>)

  datatype Note = Note(relPath: string, frontmatter: Frontmatter, body: string, links: seq<string>)

  function LastOf(parts: seq<string>): string
    requires |parts| > 0
  {
    parts[|parts| - 1]
  }

  function WithoutMd(base: string): string {
    if |base| >= 3 && base[|base| - 3..] == ".md" then base[..|base| - 3] else base
  }

  /** Canonical name: the declared one, else the file name without extension. */
  function NoteName(n: Note): string {
    if n.frontmatter.name != "" then n.frontmatter.name else WithoutMd(LastOf(Split(n.relPath, '/')))
  }
}
