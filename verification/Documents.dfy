/**
 What the store records about one file, and how a file seen by the crawler
 turns into such a record.

 Content hashes stand for contents.  Word segmentation is taken as given: a
 readable text file arrives as the list of tokens the tokenizer emits for it.
 */
module Documents {
  import opened Wrappers

  type DocId = nat
  type Path = string
  type Position = nat
  type byte = x: int | 0 <= x < 256 witness 0
  /** A term is the UTF-8 bytes of a folded word. */
  type Term = seq<byte>

  /** One emitted token.  Identifier parts share their atom's position. */
  datatype Token = Token(term: Term, position: Position)

  /** Doc statuses (src/index/doc_table.rs). */
  datatype Status = Indexed | Skipped | Binary | TooLarge {
    /** The file's bytes were read, so its content hash means something. */
    predicate WasRead() {
      Indexed? || Skipped?
    }
  }

  /** The fields an overlay patch may replace. */
  datatype Meta = Meta(path: Path, inode: nat, mtime: int, size: nat)

  /** The fields that only a reindex may change. */
  datatype Record = Record(status: Status, hash: nat, len: nat, terms: map<Term, seq<Position>>)

  datatype Doc = Doc(meta: Meta, record: Record)

  datatype Kind = TextFile | BinaryFile | LargeFile

  /** What reading a file gives: nothing, or bytes that decode or do not. */
  datatype ReadOutcome = Unreadable | Bytes(hash: nat, tokens: Option<seq<Token>>)

  datatype CrawledFile = CrawledFile(meta: Meta, kind: Kind, read: ReadOutcome)

  /** Strictly increasing: posting lists' docs, positions, hit lists. */
  ghost predicate Ascending(s: seq<nat>) {
    forall i, j | 0 <= i < j < |s| :: s[i] < s[j]
  }

  lemma {:induction false} AscendingSnoc(s: seq<nat>, v: nat)
    requires Ascending(s) && (s != [] ==> s[|s| - 1] < v)
    ensures Ascending(s + [v])
  {
  }

  /** The positions at which `term` occurs, without repeats of the last one. */
  function PositionsOf(tokens: seq<Token>, term: Term): seq<Position> {
    if tokens == [] then []
    else
      var before := PositionsOf(tokens[..|tokens| - 1], term);
      var last := tokens[|tokens| - 1];
      if last.term != term || (before != [] && before[|before| - 1] == last.position) then before
      else before + [last.position]
  }

  function TermsOf(tokens: seq<Token>): map<Term, seq<Position>> {
    map t | t in (set i | 0 <= i < |tokens| :: tokens[i].term) :: PositionsOf(tokens, t)
  }

  /** Length in atoms: one past the last token's position. */
  function LengthOf(tokens: seq<Token>): nat {
    if tokens == [] then 0 else tokens[|tokens| - 1].position + 1
  }

  /** The record a freshly indexed file gets. */
  function RecordOf(f: CrawledFile): Record {
    match f.kind
    case BinaryFile => Record(Binary, 0, 0, map[])
    case LargeFile => Record(TooLarge, 0, 0, map[])
    case TextFile =>
      match f.read
      case Unreadable => Record(Skipped, 0, 0, map[])
      case Bytes(hash, None) => Record(Skipped, hash, 0, map[])
      case Bytes(hash, Some(tokens)) => Record(Indexed, hash, LengthOf(tokens), TermsOf(tokens))
  }

  function DocOf(f: CrawledFile): Doc {
    Doc(f.meta, RecordOf(f))
  }
}
