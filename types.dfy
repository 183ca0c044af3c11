/** The document shapes the client exchanges with the document store. */
module Types {
  import opened Wrappers

  /** The four reaction kinds a post can receive. */
  datatype Kind = Smile | Frown | Like | Celebrate

  /** Every reaction kind, in the order the client lists them in a document. */
  const AllKinds: seq<Kind> := [Smile, Frown, Like, Celebrate]

  /** The key of a reaction kind in a document and in a patch path. */
  function KindName(k: Kind): string
  {
    match k
    case Smile => "smile"
    case Frown => "frown"
    case Like => "like"
    case Celebrate => "celebrate"
  }

  /** The text a writer types to insert a reaction glyph in a message. */
  function Shortcode(k: Kind): string
  {
    ":" + KindName(k) + ":"
  }

  /** A key of a JSON object: missing, present with `null`, or present with a value. */
  datatype Field<+T> = Absent | Null | Present(value: T)

  /** The users who reacted, per kind; a kind whose array is missing has no entry. */
  type Reactions = map<Kind, seq<string>>

  /** The JSON body of a post (`jsonDoc`). */
  datatype Doc = Doc(msg: Option<string>, parent: Option<string>, reactions: Field<Reactions>)

  /** The store's metadata of a document (`metaData`). */
  datatype Meta = Meta(createdBy: string, createdAt: int, lastModifiedBy: string, lastModifiedAt: int)

  /** A post as the post list hands it to its view (`viewPostHierarhcy`). */
  datatype PostView = PostView(path: string, meta: Meta, doc: Doc, indents: int)
}
