/**
 * The record model of formatter/src/lib.rs: one JSON payload decodes to a
 * `Record`, whose `Entity` is either an author or a work. The union is
 * untagged: which variant a payload is depends only on which fields it has.
 */
module Records {
  import opened Wrappers

  /** Rust's `u32`. */
  newtype u32 = x: int | 0 <= x < 0x1_0000_0000

  /** An author's identifier, such as `/authors/1`. */
  datatype AuthorKey = AuthorKey(key: string)

  /** One link from a work to an author. */
  datatype AuthorReference = AuthorReference(author: AuthorKey)

  datatype Entity =
    | Author(name: string, personalName: Option<string>)
    | Work(authors: Option<seq<AuthorReference>>, subtitle: Option<string>, title: string)

  datatype Record = Record(entity: Entity, revision: u32)
}
