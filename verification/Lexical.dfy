/** The lexical index: a committed document list and the writer's operations since the commit. */
module Lexical {
  import opened Common

  datatype Doc = Doc(id: DocId, path: Path, aliases: seq<Path>, name: string, text: string,
                     extension: Option<string>, mime: string)

  datatype Op = Add(doc: Doc) | Remove(id: DocId)

  datatype LexicalState = LexicalState(committed: seq<Doc>, pending: seq<Op>)

  function Without(docs: seq<Doc>, id: DocId): seq<Doc> {
    if docs == [] then []
    else
      var last := docs[|docs| - 1];
      Without(docs[..|docs| - 1], id) + if last.id == id then [] else [last]
  }

  /** A delete term removes every earlier document of the id, an add appends one. */
  function Apply(docs: seq<Doc>, op: Op): seq<Doc> {
    match op
    case Add(doc) => docs + [doc]
    case Remove(id) => Without(docs, id)
  }

  function Fold(docs: seq<Doc>, ops: seq<Op>): seq<Doc> {
    if ops == [] then docs else Apply(Fold(docs, ops[..|ops| - 1]), ops[|ops| - 1])
  }

  /** The documents a commit would make searchable. */
  function Visible(s: LexicalState): seq<Doc> {
    Fold(s.committed, s.pending)
  }

  function Queued(s: LexicalState, ops: seq<Op>): LexicalState {
    s.(pending := s.pending + ops)
  }

  function Committed(s: LexicalState): LexicalState {
    LexicalState(Visible(s), [])
  }

  /** All documents of an id, in order. */
  function Matching(docs: seq<Doc>, id: DocId): seq<Doc> {
    if docs == [] then []
    else
      var last := docs[|docs| - 1];
      Matching(docs[..|docs| - 1], id) + if last.id == id then [last] else []
  }

  /** `docs` holds exactly one document per key of `m`, the one `m` names, and no other. */
  ghost predicate Holds(docs: seq<Doc>, m: map<DocId, Doc>) {
    && (forall id :: id in m ==> m[id].id == id)
    && forall id :: Matching(docs, id) == if id in m then [m[id]] else []
  }

  lemma {:induction false} MatchingWithout(docs: seq<Doc>, id: DocId, other: DocId)
    ensures Matching(Without(docs, id), other) == if other == id then [] else Matching(docs, other)
  {
    if docs != [] {
      var init, last := docs[..|docs| - 1], docs[|docs| - 1];
      MatchingWithout(init, id, other);
      if last.id != id {
        MatchingAdd(Without(init, id), last, other);
      } else {
        assert Without(docs, id) == Without(init, id);
      }
    }
  }

  lemma MatchingAdd(docs: seq<Doc>, doc: Doc, other: DocId)
    ensures Matching(docs + [doc], other) == Matching(docs, other) + if doc.id == other then [doc] else []
  {
    assert (docs + [doc])[..|docs|] == docs;
  }

  lemma VisibleNext(s: LexicalState, op: Op)
    ensures Visible(Queued(s, [op])) == Apply(Visible(s), op)
  {
    assert (s.pending + [op])[..|s.pending|] == s.pending;
  }

  lemma RemoveHolds(s: LexicalState, m: map<DocId, Doc>, id: DocId)
    requires Holds(Visible(s), m)
    ensures Holds(Visible(Queued(s, [Remove(id)])), m - {id})
  {
    VisibleNext(s, Remove(id));
    forall other {
      MatchingWithout(Visible(s), id, other);
    }
    hide Matching, Without, Visible;
  }

  lemma AddHolds(s: LexicalState, m: map<DocId, Doc>, doc: Doc)
    requires Holds(Visible(s), m) && doc.id !in m
    ensures Holds(Visible(Queued(s, [Add(doc)])), m[doc.id := doc])
  {
    VisibleNext(s, Add(doc));
    forall other {
      MatchingAdd(Visible(s), doc, other);
    }
    hide Matching, Visible;
  }

  /** Delete-then-add of one id leaves exactly the new document under it, whatever was there. */
  lemma ReplaceHolds(s: LexicalState, m: map<DocId, Doc>, doc: Doc)
    requires Holds(Visible(s), m)
    ensures Holds(Visible(Queued(s, [Remove(doc.id), Add(doc)])), m[doc.id := doc])
  {
    var s1 := Queued(s, [Remove(doc.id)]);
    RemoveHolds(s, m, doc.id);
    AddHolds(s1, m - {doc.id}, doc);
    hide Holds, Visible;
    assert Queued(s1, [Add(doc)]) == Queued(s, [Remove(doc.id), Add(doc)]);
    assert (m - {doc.id})[doc.id := doc] == m[doc.id := doc];
  }

  class LexicalStore {
    var committed: seq<Doc>
    var pending: seq<Op>

    ghost function State(): LexicalState
      reads this
    {
      LexicalState(committed, pending)
    }

    constructor ()
      ensures State() == LexicalState([], [])
    {
      committed, pending := [], [];
    }

    method AddDocument(doc: Doc)
      modifies this
      ensures State() == Queued(old(State()), [Add(doc)])
    {
      pending := pending + [Add(doc)];
    }

    method DeleteDocument(id: DocId)
      modifies this
      ensures State() == Queued(old(State()), [Remove(id)])
    {
      pending := pending + [Remove(id)];
    }

    method Commit()
      modifies this
      ensures State() == Committed(old(State()))
    {
      var docs := committed;
      for i := 0 to |pending|
        invariant committed == old(committed) && pending == old(pending)
        invariant docs == Fold(committed, pending[..i])
      {
        assert pending[..i + 1][..i] == pending[..i];
        docs := Apply(docs, pending[i]);
      }
      assert pending[..|pending|] == pending;
      committed, pending := docs, [];
    }
  }
}
