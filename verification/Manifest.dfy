/** The local content-hash manifest (codna/memory_manifest.py): what one JSON value of it says. */
module Manifest {
  import opened Wrappers

  type Id = string

  /** The salted content hash. Modelled as its own input, so distinct contents never collide. */
  datatype Digest = Digest(space: string, service: string, text: string)

  /** The partition key of a row; distinct (repository, service, language) triples are distinct scopes. */
  datatype Scope = Scope(repo: string, service: string, language: string)

  /** A decoded manifest value: a bare hash (older format), an object, or anything else. */
  datatype Entry =
    | Bare(digest: Digest)
    | Record(hash: Option<Digest>, repo: string, service: string, language: string, scope: Option<Scope>)
    | Junk

  function HashOf(entry: Entry): Option<Digest> {
    match entry
    case Bare(digest) => Some(digest)
    case Record(hash, _, _, _, _) => hash
    case Junk => None
  }

  function ScopeOf(entry: Entry): Option<Scope> {
    if entry.Record? then entry.scope else None
  }

  function MakeEntry(digest: Digest, scope: Scope): Entry {
    Record(Some(digest), scope.repo, scope.service, scope.language, Some(scope))
  }

  /** Whether an id written by an older version belongs to a repository, judged by its prefix. */
  predicate LegacyIdBelongsToRepo(id: Id, repo: string) {
    repo + ":" <= id
  }
}
