/**
 * Content-addressed values of one repository. A CID is modelled as the content it addresses, so
 * hashing is injective and record, node, commit and raw CIDs never collide.
 */
module RepoTypes {
  import opened Common

  /** `<collection>/<rkey>`; within one repository it stands for the record URI as well. */
  type Path = string

  type Tree = map<Path, Cid>

  /** A record value, with the object shapes the blob walk tells apart. */
  datatype Json =
    | Scalar(text: string)
    | Arr(items: seq<Json>)
    | Obj(fields: seq<(string, Json)>)
    | Blob(ref: Cid)
    | LegacyBlob(link: string)
    | Bytes(base64: string)
    | CidLink(link: string)

  datatype Cid =
    | RecordCid(value: Json)
    | NodeCid(height: nat, entries: Tree)
    | CommitCid(data: Cid, rev: nat)
    | RawCid(content: string)

  /**
   * The Merkle search tree library over the finite-map view: the height of a tree's root, the node
   * CIDs a stored tree consists of, and the blocks the wrangler puts when it turns one tree into
   * another. `None` stands for the null root of a repository without a tree.
   */
  datatype Mst = Mst(
    height: Tree -> nat,
    nodes: Tree -> set<Cid>,
    stored: (Option<Tree>, Option<Tree>) -> set<Cid>)
  {
    function Root(t: Tree): (r: Cid) {
      NodeCid(height(t), t)
    }

    function Nodes(t: Option<Tree>): (r: set<Cid>) {
      if t.Some? then nodes(t.value) else {}
    }

    /** What is assumed of the library: roots are nodes, and every new node is put. */
    ghost predicate Lawful() {
      && (forall t: Tree :: Root(t) in nodes(t))
      && (forall t: Tree, c: Cid :: c in nodes(t) ==> c.NodeCid?)
      && (forall s: Option<Tree>, t: Option<Tree> :: Nodes(t) <= Nodes(s) + stored(s, t))
      && (forall s: Option<Tree>, t: Option<Tree>, c: Cid :: c in stored(s, t) ==> c.NodeCid?)
    }
  }

  /** A library that stores every tree as a single node. */
  function OneNode(): (r: Mst) {
    Mst((t: Tree) => 0,
        (t: Tree) => {NodeCid(0, t)},
        (s: Option<Tree>, t: Option<Tree>) => if t.Some? then {NodeCid(0, t.value)} else {})
  }

  lemma SomeLibraryIsLawful()
    ensures OneNode().Lawful()
  {
  }
}
