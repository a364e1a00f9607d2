// Generated documents as new versions in a lineage
// (services/knowledge-service/daypilot_knowledge/document_ai.py).

module DocumentVersions {
  import opened Options
  import opened PyText
  import opened Sequences

  const CHUNK_SIZE := 1200

  datatype Document = Document(id: nat, parent: Option<nat>, version: nat, title: string, generated: bool)

  // The text of the chunks of each document, in the order of chunk_index.
  datatype State = State(documents: seq<Document>, chunks: map<nat, seq<string>>, nextId: nat)

  function IdOf(d: Document): nat {
    d.id
  }

  function Find(documents: seq<Document>, id: nat): nat {
    IndexOf(documents, IdOf, id)
  }

  // source.parent_document_id or source.id
  function RootOf(d: Document): nat {
    match d.parent case None => d.id case Some(p) => p
  }

  predicate InLineage(d: Document, root: nat) {
    d.parent == Some(root) || d.id == root
  }

  // max(version) over the lineage, or 0 when it is empty
  function MaxVersion(documents: seq<Document>, root: nat): nat {
    if documents == [] then 0
    else
      var last, rest := documents[|documents| - 1], MaxVersion(documents[..|documents| - 1], root);
      if InLineage(last, root) && last.version > rest then last.version else rest
  }

  // clean[i : i + size] for i in range(0, len(clean), size)
  function Pieces(clean: string): seq<string>
    decreases |clean|
  {
    if clean == "" then []
    else if |clean| <= CHUNK_SIZE then [clean]
    else [clean[..CHUNK_SIZE]] + Pieces(clean[CHUNK_SIZE..])
  }

  function Chunk(text: string): seq<string> {
    Pieces(Strip(text))
  }

  // generate_output on an existing source document
  function Generated(s: State, source: Document, title: string, content: string): State {
    var root := RootOf(source);
    var top := MaxVersion(s.documents, root);
    var version := (if top == 0 then 1 else top) + 1;
    State(s.documents + [Document(s.nextId, Some(root), version, title, true)],
          s.chunks[s.nextId := Chunk(content)], s.nextId + 1)
  }

  class DocumentStore {
    var documents: seq<Document>
    var chunks: map<nat, seq<string>>
    var nextId: nat

    ghost function Contents(): State
      reads this
    {
      State(documents, chunks, nextId)
    }

    constructor ()
      ensures Contents() == State([], map[], 0)
    {
      documents, chunks, nextId := [], map[], 0;
    }

    // An uploaded document starts a lineage of its own.
    method Upload(title: string) returns (id: nat)
      modifies this
      ensures Contents() == Uploaded(old(Contents()), title) && id == old(nextId)
    {
      id := nextId;
      documents := documents + [Document(id, None, 1, title, false)];
      nextId := nextId + 1;
    }

    // The new version, or None when the source document does not exist.
    method GenerateOutput(sourceId: nat, title: string, content: string) returns (version: Option<nat>)
      modifies this
      ensures Find(old(documents), sourceId) == |old(documents)| ==> version.None? && Contents() == old(Contents())
      ensures Find(old(documents), sourceId) < |old(documents)| ==>
                && Contents() == Generated(old(Contents()), old(documents)[Find(old(documents), sourceId)],
                                          title, content)
                && version == Some(documents[|documents| - 1].version)
    {
      var i := Find(documents, sourceId);
      if i == |documents| {
        return None;
      }
      var source := documents[i];
      var root := if source.parent.Some? then source.parent.value else source.id;
      var top := MaxVersion(documents, root);
      if top == 0 {
        top := 1;
      }
      var generated := Document(nextId, Some(root), top + 1, title, true);
      documents := documents + [generated];
      var rows: seq<string> := [];
      var pieces := Chunk(content);
      for k := 0 to |pieces|
        invariant rows == pieces[..k]
        invariant documents == old(documents) + [generated] && nextId == old(nextId) && chunks == old(chunks)
      {
        rows := rows + [pieces[k]];
      }
      assert pieces[..|pieces|] == pieces;
      chunks := chunks[nextId := rows];
      nextId := nextId + 1;
      version := Some(generated.version);
    }
  }

  function Uploaded(s: State, title: string): State {
    s.(documents := s.documents + [Document(s.nextId, None, 1, title, false)], nextId := s.nextId + 1)
  }

  // ---- chunks

  // The chunks join to the stripped content; all but the last are full.
  lemma {:induction false} PiecesJoin(clean: string)
    ensures Concat(Pieces(clean)) == clean
    ensures forall i :: 0 <= i < |Pieces(clean)| ==> 0 < |Pieces(clean)[i]| <= 1200
    ensures forall i :: 0 <= i < |Pieces(clean)| - 1 ==> |Pieces(clean)[i]| == 1200
    decreases |clean|
  {
    if clean == "" {
    } else if |clean| <= CHUNK_SIZE {
      assert [clean][1..] == [] && clean + "" == clean;
    } else {
      PiecesJoin(clean[CHUNK_SIZE..]);
      assert Pieces(clean)[1..] == Pieces(clean[CHUNK_SIZE..]);
      assert clean[..CHUNK_SIZE] + clean[CHUNK_SIZE..] == clean;
    }
  }

  // ---- runs

  datatype Call = Add(title: string) | Generate(sourceId: nat, title: string, content: string)

  function Apply(s: State, call: Call): State {
    match call
    case Add(title) => Uploaded(s, title)
    case Generate(sourceId, title, content) =>
      var i := Find(s.documents, sourceId);
      if i == |s.documents| then s else Generated(s, s.documents[i], title, content)
  }

  function Run(s: State, calls: seq<Call>): State {
    if calls == [] then s else Apply(Run(s, calls[..|calls| - 1]), calls[|calls| - 1])
  }

  const Empty: State := State([], map[], 0)

  predicate IsRoot(documents: seq<Document>, id: nat) {
    exists i :: 0 <= i < |documents| && documents[i].id == id && documents[i].parent.None?
  }

  // Ids grow and stay below the next one.
  predicate IdsGrow(s: State) {
    && (forall i, j :: 0 <= i < j < |s.documents| ==> s.documents[i].id < s.documents[j].id)
    && (forall i :: 0 <= i < |s.documents| ==> s.documents[i].id < s.nextId && s.documents[i].version >= 1)
  }

  // A document without a parent is an upload with version 1; every generated
  // document is a direct child of such a root.
  predicate RootOrChild(documents: seq<Document>, d: Document) {
    if d.parent.None? then d.version == 1 && !d.generated else d.generated && IsRoot(documents, d.parent.value)
  }

  predicate TwoLevels(documents: seq<Document>) {
    forall i :: 0 <= i < |documents| ==> RootOrChild(documents, documents[i])
  }

  // Within a lineage later documents have larger versions.
  predicate VersionsGrow(documents: seq<Document>) {
    forall i, j :: 0 <= i < j < |documents| && RootOf(documents[i]) == RootOf(documents[j]) ==>
      documents[i].version < documents[j].version
  }

  predicate Valid(s: State) {
    IdsGrow(s) && TwoLevels(s.documents) && VersionsGrow(s.documents)
  }

  lemma {:induction false} MaxVersionBounds(documents: seq<Document>, root: nat)
    ensures forall i :: 0 <= i < |documents| && InLineage(documents[i], root) ==>
              documents[i].version <= MaxVersion(documents, root)
  {
    if documents == [] {
    } else {
      MaxVersionBounds(documents[..|documents| - 1], root);
      assert forall i :: 0 <= i < |documents| - 1 ==> documents[..|documents| - 1][i] == documents[i];
    }
  }

  lemma StillRoot(documents: seq<Document>, d: Document, id: nat)
    requires IsRoot(documents, id)
    ensures IsRoot(documents + [d], id)
  {
    var i :| 0 <= i < |documents| && documents[i].id == id && documents[i].parent.None?;
    assert (documents + [d])[i] == documents[i];
  }

  // In a valid store, the lineage the query reads is the set of documents with
  // the same root.
  lemma LineageIsRoot(s: State, d: Document, root: nat)
    requires Valid(s) && d in s.documents && IsRoot(s.documents, root)
    ensures InLineage(d, root) <==> RootOf(d) == root
  {
    var i :| 0 <= i < |s.documents| && s.documents[i].id == root && s.documents[i].parent.None?;
    var j :| 0 <= j < |s.documents| && s.documents[j] == d;
  }

  lemma TwoLevelsAppend(documents: seq<Document>, d: Document)
    requires TwoLevels(documents) && RootOrChild(documents + [d], d)
    ensures TwoLevels(documents + [d])
  {
    var all := documents + [d];
    forall i | 0 <= i < |all| ensures RootOrChild(all, all[i]) {
      if i < |documents| && documents[i].parent.Some? {
        StillRoot(documents, d, documents[i].parent.value);
      }
    }
  }

  lemma VersionsGrowAppend(documents: seq<Document>, d: Document)
    requires VersionsGrow(documents)
    requires forall i :: 0 <= i < |documents| && RootOf(documents[i]) == RootOf(d) ==> documents[i].version < d.version
    ensures VersionsGrow(documents + [d])
  {
  }

  lemma RootExists(s: State, d: Document)
    requires Valid(s) && d in s.documents
    ensures IsRoot(s.documents, RootOf(d))
  {
    var i :| 0 <= i < |s.documents| && s.documents[i] == d;
    assert RootOrChild(s.documents, s.documents[i]);
  }

  lemma NewVersionIsLargest(s: State, source: Document, version: nat)
    requires Valid(s) && source in s.documents && version > MaxVersion(s.documents, RootOf(source))
    ensures forall i :: 0 <= i < |s.documents| && RootOf(s.documents[i]) == RootOf(source) ==>
            s.documents[i].version < version
  {
    RootExists(s, source);
    MaxVersionBounds(s.documents, RootOf(source));
    forall i | 0 <= i < |s.documents| && RootOf(s.documents[i]) == RootOf(source)
      ensures s.documents[i].version < version
    {
      LineageIsRoot(s, s.documents[i], RootOf(source));
    }
  }

  lemma GeneratedValid(s: State, source: Document, title: string, content: string)
    requires Valid(s) && source in s.documents
    ensures Valid(Generated(s, source, title, content))
  {
    var d := Generated(s, source, title, content).documents[|s.documents|];
    RootExists(s, source);
    StillRoot(s.documents, d, RootOf(source));
    TwoLevelsAppend(s.documents, d);
    NewVersionIsLargest(s, source, d.version);
    VersionsGrowAppend(s.documents, d);
  }

  lemma RootsBelowNext(s: State, i: nat)
    requires Valid(s) && i < |s.documents|
    ensures RootOf(s.documents[i]) < s.nextId
  {
    RootExists(s, s.documents[i]);
    var k :| 0 <= k < |s.documents| && s.documents[k].id == RootOf(s.documents[i]) && s.documents[k].parent.None?;
  }

  lemma UploadedValid(s: State, title: string)
    requires Valid(s)
    ensures Valid(Uploaded(s, title))
  {
    var d := Uploaded(s, title).documents[|s.documents|];
    TwoLevelsAppend(s.documents, d);
    forall i | 0 <= i < |s.documents| ensures RootOf(s.documents[i]) != RootOf(d) {
      RootsBelowNext(s, i);
    }
    VersionsGrowAppend(s.documents, d);
  }

  // Over every run: unique, growing versions in each lineage, all children
  // directly under a root.
  lemma {:induction false} RunValid(calls: seq<Call>)
    ensures Valid(Run(Empty, calls))
  {
    if calls == [] {
    } else {
      RunValid(calls[..|calls| - 1]);
      ApplyValid(Run(Empty, calls[..|calls| - 1]), calls[|calls| - 1]);
    }
  }

  // A new version is one above the largest so far, whichever version of the
  // lineage it was generated from.
  lemma NextVersion(s: State, source: Document, title: string, content: string)
    requires Valid(s) && source in s.documents
    ensures var s' := Generated(s, source, title, content);
            var d := s'.documents[|s.documents|];
            && d.parent == Some(RootOf(source)) && d.version == MaxVersion(s.documents, RootOf(source)) + 1
            && s'.documents[..|s.documents|] == s.documents
            && Concat(s'.chunks[d.id]) == Strip(content)
  {
    var root := RootOf(source);
    PiecesJoin(Strip(content));
    MaxVersionBounds(s.documents, root);
    LineageIsRootOfSource(s, source);
  }

  lemma LineageIsRootOfSource(s: State, source: Document)
    requires Valid(s) && source in s.documents
    ensures MaxVersion(s.documents, RootOf(source)) >= 1
  {
    var i :| 0 <= i < |s.documents| && s.documents[i] == source;
    MaxVersionBounds(s.documents, RootOf(source));
    assert InLineage(s.documents[i], RootOf(source));
  }

  // The versions of a lineage have no gaps: they are 1, 2, ... in order.
  function LineageSize(documents: seq<Document>, root: nat): nat {
    if documents == [] then 0
    else LineageSize(documents[..|documents| - 1], root) + if InLineage(documents[|documents| - 1], root) then 1 else 0
  }

  predicate Gapless(s: State, root: nat) {
    MaxVersion(s.documents, root) == LineageSize(s.documents, root)
  }

  lemma MaxAndSizeAppend(documents: seq<Document>, d: Document, root: nat)
    ensures MaxVersion(documents + [d], root) ==
            if InLineage(d, root) && d.version > MaxVersion(documents, root) then d.version
            else MaxVersion(documents, root)
    ensures LineageSize(documents + [d], root) == LineageSize(documents, root) + if InLineage(d, root) then 1 else 0
  {
    assert (documents + [d])[..|documents|] == documents;
  }

  lemma {:induction false} NoLineageYet(s: State, root: nat)
    requires Valid(s) && root >= s.nextId
    ensures MaxVersion(s.documents, root) == 0 && LineageSize(s.documents, root) == 0
  {
    forall i | 0 <= i < |s.documents| ensures !InLineage(s.documents[i], root) {
      RootsBelowNext(s, i);
    }
    NoneInLineage(s.documents, root);
  }

  lemma {:induction false} NoneInLineage(documents: seq<Document>, root: nat)
    requires forall i :: 0 <= i < |documents| ==> !InLineage(documents[i], root)
    ensures MaxVersion(documents, root) == 0 && LineageSize(documents, root) == 0
  {
    if documents == [] {
    } else {
      NoneInLineage(documents[..|documents| - 1], root);
    }
  }

  lemma ApplyGapless(s: State, call: Call, root: nat)
    requires Valid(s) && Gapless(s, root) && IsRoot(Apply(s, call).documents, root)
    ensures Gapless(Apply(s, call), root)
  {
    var s' := Apply(s, call);
    if s'.documents != s.documents {
      var d := s'.documents[|s.documents|];
      assert s'.documents == s.documents + [d];
      MaxAndSizeAppend(s.documents, d, root);
      match call {
        case Add(_) =>
          if root == s.nextId {
            NoLineageYet(s, root);
          }
        case Generate(sourceId, _, _) =>
          var source := s.documents[Find(s.documents, sourceId)];
          LineageIsRootOfSource(s, source);
          if root == s.nextId {
            NoLineageYet(s, root);
          }
      }
    }
  }

  lemma {:induction false} RunGapless(calls: seq<Call>, root: nat)
    requires IsRoot(Run(Empty, calls).documents, root)
    ensures Gapless(Run(Empty, calls), root)
  {
    if calls == [] {
    } else {
      var before, last := calls[..|calls| - 1], calls[|calls| - 1];
      var s := Run(Empty, before);
      RunValid(before);
      if IsRoot(s.documents, root) {
        RunGapless(before, root);
      } else {
        NewRoot(s, last, root);
        NoLineageYet(s, root);
      }
      ApplyGapless(s, last, root);
    }
  }

  lemma NewRoot(s: State, call: Call, root: nat)
    requires IsRoot(Apply(s, call).documents, root) && !IsRoot(s.documents, root)
    ensures root == s.nextId
  {
    var docs := Apply(s, call).documents;
    var i :| 0 <= i < |docs| && docs[i].id == root && docs[i].parent.None?;
    assert i < |s.documents| ==> docs[i] == s.documents[i];
  }

  lemma ApplyValid(s: State, call: Call)
    requires Valid(s)
    ensures Valid(Apply(s, call))
  {
    match call {
      case Add(title) => UploadedValid(s, title);
      case Generate(sourceId, title, content) =>
        var i := Find(s.documents, sourceId);
        if i < |s.documents| {
          GeneratedValid(s, s.documents[i], title, content);
        }
    }
  }

  // Earlier documents and their chunks are never changed.
  lemma {:induction false} EarlierUnchanged(s: State, calls: seq<Call>)
    ensures s.documents <= Run(s, calls).documents && s.nextId <= Run(s, calls).nextId
    ensures forall id :: id in s.chunks && id < s.nextId ==>
              id in Run(s, calls).chunks && Run(s, calls).chunks[id] == s.chunks[id]
  {
    if calls == [] {
    } else {
      EarlierUnchanged(s, calls[..|calls| - 1]);
    }
  }
}
