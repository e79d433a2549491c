/** Signed constitutional documents: what is signed (crates/abigail-core/src/document.rs),
    signing (crates/abigail-core/src/keyring.rs) and verification
    (crates/abigail-core/src/verifier.rs). */
module Signing {
  import opened Wrappers

  datatype Tier = Constitutional | MentorEditable

  function TierName(t: Tier): (s: string)
    ensures '|' !in s && s != ""
  {
    match t
    case Constitutional => "Constitutional"
    case MentorEditable => "MentorEditable"
  }

  /** The text a signature is over. */
  function Signable(name: string, tier: Tier, content: string): string {
    name + "|" + TierName(tier) + "|" + content
  }

  /** The text, tier by tier. */
  lemma SignableText(name: string, content: string)
    ensures Signable(name, Constitutional, content) == name + "|Constitutional|" + content
    ensures Signable(name, MentorEditable, content) == name + "|MentorEditable|" + content
  {
    assert name + "|" + "Constitutional" + "|" + content == name + "|Constitutional|" + content;
    assert name + "|" + "MentorEditable" + "|" + content == name + "|MentorEditable|" + content;
  }

  // ---- Ideal signatures ----

  /** A private key is known by its owner's number, and its public key carries the same. */
  datatype SigningKey = SigningKey(owner: nat)

  datatype PublicKey = PublicKey(owner: nat)

  function PublicOf(key: SigningKey): PublicKey {
    PublicKey(key.owner)
  }

  /** What a signature's base64 text decodes to. */
  datatype Signature = Undecodable | Signature(signer: SigningKey, text: string)

  predicate VerifiesWith(key: PublicKey, text: string, s: Signature) {
    s.Signature? && PublicOf(s.signer) == key && s.text == text
  }

  datatype SigMeta = SigMeta(signature: Signature, tier: Tier)

  function SignDocument(key: SigningKey, name: string, content: string, tier: Tier): SigMeta {
    SigMeta(Signature(key, Signable(name, tier, content)), tier)
  }

  // ---- The documents directory ----

  datatype DocFile = Unreadable | Text(content: string)

  datatype SigFile = Unparseable | Meta(meta: SigMeta)

  const REQUIRED_DOCS: seq<string> := ["soul.md", "ethics.md", "instincts.md"]

  datatype Error =
    | DocumentNotFound(name: string) | SignatureNotFound(name: string) | IoFailed
    | InvalidSigFile | InvalidEncoding | SignatureInvalid(name: string)

  type Docs = map<string, DocFile>

  type Sigs = map<string, SigFile>

  /** Why signing the document at `i` fails, if it does; `write` is how the write of its
      signature file goes. */
  function SigningError(docs: Docs, i: nat, write: AtomicWrite): Option<Error>
    requires i < |REQUIRED_DOCS|
  {
    var name := REQUIRED_DOCS[i];
    if name !in docs then Some(DocumentNotFound(name))
    else if docs[name].Unreadable? || write != Done then Some(IoFailed)
    else None
  }

  function SignatureOf(key: SigningKey, docs: Docs, i: nat): SigFile
    requires i < |REQUIRED_DOCS| && SigningError(docs, i, Done).None?
  {
    Meta(SignDocument(key, REQUIRED_DOCS[i], docs[REQUIRED_DOCS[i]].content, Constitutional))
  }

  /** The signature files once the document at `i` has been through. */
  function WithSignature(key: SigningKey, docs: Docs, sigs: Sigs, i: nat, write: AtomicWrite): Sigs
    requires i < |REQUIRED_DOCS|
  {
    if SigningError(docs, i, Done).Some? || write == Kept then sigs
    else sigs[REQUIRED_DOCS[i] := SignatureOf(key, docs, i)]
  }

  /** The outcome from the `i`-th document on: signatures written before an error stay. */
  function SignedFrom(key: SigningKey, docs: Docs, sigs: Sigs, writes: nat -> AtomicWrite, i: nat): (Sigs, Option<Error>)
    requires i <= |REQUIRED_DOCS|
    decreases |REQUIRED_DOCS| - i
  {
    if i == |REQUIRED_DOCS| then (sigs, None)
    else
      var e := SigningError(docs, i, writes(i));
      var sigs1 := WithSignature(key, docs, sigs, i, writes(i));
      if e.Some? then (sigs1, e) else SignedFrom(key, docs, sigs1, writes, i + 1)
  }

  method SignConstitutionalDocuments(key: SigningKey, docs: Docs, sigs: Sigs, writes: nat -> AtomicWrite)
      returns (signed: Sigs, error: Option<Error>)
    ensures (signed, error) == SignedFrom(key, docs, sigs, writes, 0)
  {
    hide SignDocument;
    signed := sigs;
    for i := 0 to |REQUIRED_DOCS|
      invariant SignedFrom(key, docs, sigs, writes, 0) == SignedFrom(key, docs, signed, writes, i)
    {
      var name := REQUIRED_DOCS[i];
      if name !in docs {
        return signed, Some(DocumentNotFound(name));
      }
      if docs[name].Unreadable? {
        return signed, Some(IoFailed);
      }
      var meta := SignDocument(key, name, docs[name].content, Constitutional);
      if writes(i) != Kept {
        signed := signed[name := Meta(meta)];
      }
      if writes(i) != Done {
        return signed, Some(IoFailed);
      }
    }
    return signed, None;
  }

  // ---- Verification ----

  datatype Document = Document(name: string, tier: Tier, content: string, signature: Signature)

  function VerifyDocument(key: PublicKey, doc: Document): Option<Error> {
    if doc.signature.Undecodable? then Some(InvalidEncoding)
    else if VerifiesWith(key, Signable(doc.name, doc.tier, doc.content), doc.signature) then None
    else Some(SignatureInvalid(doc.name))
  }

  /** The document as found, or why it cannot be loaded. */
  function Loaded(docs: Docs, sigs: Sigs, name: string): Result<Document, Error> {
    if name !in docs then Err(DocumentNotFound(name))
    else if name !in sigs then Err(SignatureNotFound(name))
    else if docs[name].Unreadable? then Err(IoFailed)
    else if sigs[name].Unparseable? then Err(InvalidSigFile)
    else Ok(Document(name, sigs[name].meta.tier, docs[name].content, sigs[name].meta.signature))
  }

  /** The document is there and its signature is good. */
  predicate Accepted(key: PublicKey, docs: Docs, sigs: Sigs, name: string) {
    Loaded(docs, sigs, name).Ok? && VerifyDocument(key, Loaded(docs, sigs, name).value).None?
  }

  predicate SoulAccepted(key: PublicKey, docs: Docs, sigs: Sigs) {
    forall i :: 0 <= i < |REQUIRED_DOCS| ==> Accepted(key, docs, sigs, REQUIRED_DOCS[i])
  }

  /** Why a document is not accepted: the first thing that is wrong with it. */
  predicate IsBlamed(key: PublicKey, docs: Docs, sigs: Sigs, name: string, error: Error) {
    match error
    case DocumentNotFound(n) => n == name && name !in docs
    case SignatureNotFound(n) => n == name && name in docs && name !in sigs
    case IoFailed => name in docs && name in sigs && docs[name].Unreadable?
    case InvalidSigFile => name in docs && name in sigs && docs[name].Text? && sigs[name].Unparseable?
    case InvalidEncoding =>
      name in docs && name in sigs && docs[name].Text? && sigs[name].Meta? && sigs[name].meta.signature.Undecodable?
    case SignatureInvalid(n) =>
      && n == name && name in docs && name in sigs && docs[name].Text? && sigs[name].Meta?
      && var meta := sigs[name].meta;
      && meta.signature.Signature?
      && (PublicOf(meta.signature.signer) != key
          || meta.signature.text != Signable(name, meta.tier, docs[name].content))
  }

  lemma BlameIsFirst(key: PublicKey, docs: Docs, sigs: Sigs, name: string)
    ensures Loaded(docs, sigs, name).Err? ==> IsBlamed(key, docs, sigs, name, Loaded(docs, sigs, name).error)
    ensures Loaded(docs, sigs, name).Ok? && VerifyDocument(key, Loaded(docs, sigs, name).value).Some? ==>
              IsBlamed(key, docs, sigs, name, VerifyDocument(key, Loaded(docs, sigs, name).value).value)
  {
    hide Signable;
  }

  class Verifier {
    const key: PublicKey
    var documents: map<string, Document>

    constructor (key: PublicKey)
      ensures this.key == key && documents == map[]
    {
      this.key, documents := key, map[];
    }

    /** On success the verifier holds the three documents just as they were found; on
        failure the first that is not accepted is to blame. */
    method VerifySoul(docs: Docs, sigs: Sigs) returns (error: Option<Error>)
      modifies this`documents
      ensures error.None? <==> SoulAccepted(key, docs, sigs)
      ensures error.Some? ==>
                exists i :: 0 <= i < |REQUIRED_DOCS| && IsBlamed(key, docs, sigs, REQUIRED_DOCS[i], error.value)
                            && forall j :: 0 <= j < i ==> Accepted(key, docs, sigs, REQUIRED_DOCS[j])
      ensures forall name :: name in documents ==>
                (name in old(documents) && documents[name] == old(documents)[name])
                || (Loaded(docs, sigs, name) == Ok(documents[name]) && VerifyDocument(key, documents[name]).None?)
      ensures error.None? ==> forall name :: name in REQUIRED_DOCS ==>
                name in documents && Loaded(docs, sigs, name) == Ok(documents[name])
    {
      hide Loaded, VerifyDocument, IsBlamed;
      for i := 0 to |REQUIRED_DOCS|
        invariant forall j :: 0 <= j < i ==> Accepted(key, docs, sigs, REQUIRED_DOCS[j])
        invariant forall j :: 0 <= j < i ==> REQUIRED_DOCS[j] in documents
                                             && Loaded(docs, sigs, REQUIRED_DOCS[j]) == Ok(documents[REQUIRED_DOCS[j]])
        invariant forall name :: name in documents ==>
                    (name in old(documents) && documents[name] == old(documents)[name])
                    || (Loaded(docs, sigs, name) == Ok(documents[name]) && VerifyDocument(key, documents[name]).None?)
      {
        var name := REQUIRED_DOCS[i];
        var doc := Loaded(docs, sigs, name);
        BlameIsFirst(key, docs, sigs, name);
        if doc.Err? {
          return Some(doc.error);
        }
        var bad := VerifyDocument(key, doc.value);
        if bad.Some? {
          return bad;
        }
        documents := documents[name := doc.value];
      }
      return None;
    }
  }

  // ---- What a signature says ----

  /** Two signed texts are the same exactly when name, tier and content are, or one name
      goes on where the other ends with that one's tier and a part of its content. */
  lemma SignableExactly(name: string, tier: Tier, content: string, name': string, tier': Tier, content': string)
    requires |name| <= |name'|
    ensures Signable(name, tier, content) == Signable(name', tier', content')
       <==> (name == name' && tier == tier' && content == content')
            || exists r :: Continues(name, tier, content, name', tier', content', r)
  {
    hide TierName;
    var s, s' := Signable(name, tier, content), Signable(name', tier', content');
    if s == s' {
      assert s[..|name|] == name && s'[..|name'|] == name';
      if |name| == |name'| {
        assert s[|name| + 1..] == TierName(tier) + "|" + content;
        assert s'[|name| + 1..] == TierName(tier') + "|" + content';
        TierIsRead(tier, content, tier', content');
      } else {
        NameContinues(name, tier, content, name', tier', content');
      }
    }
    forall r | Continues(name, tier, content, name', tier', content', r)
      ensures s == s'
    {
      assert s == (name + "|" + TierName(tier) + "|" + r) + TierName(tier') + "|" + content';
    }
  }

  ghost predicate Continues(name: string, tier: Tier, content: string, name': string, tier': Tier, content': string,
                            r: string)
  {
    && name' + "|" == name + "|" + TierName(tier) + "|" + r
    && content == r + TierName(tier') + "|" + content'
  }

  lemma FirstSeparator(a: string, x: string, k: nat)
    requires '|' !in a && k < |a + "|" + x| && (a + "|" + x)[k] == '|'
    ensures |a| <= k
  {
  }

  /** What comes before a text's first separator is determined by the text. */
  lemma FirstPart(a: string, x: string, b: string, y: string)
    requires '|' !in a && '|' !in b && a + "|" + x == b + "|" + y
    ensures a == b && x == y
  {
    var s := a + "|" + x;
    assert s[|a|] == '|' && s[|b|] == '|';
    FirstSeparator(a, x, |b|);
    FirstSeparator(b, y, |a|);
    assert a == s[..|a|] && b == s[..|b|];
    assert x == s[|a| + 1..] && y == s[|b| + 1..];
  }

  lemma TierIsRead(tier: Tier, content: string, tier': Tier, content': string)
    requires TierName(tier) + "|" + content == TierName(tier') + "|" + content'
    ensures tier == tier' && content == content'
  {
    FirstPart(TierName(tier), content, TierName(tier'), content');
    assert TierName(Constitutional)[0] == 'C' && TierName(MentorEditable)[0] == 'M';
  }

  lemma NameContinues(name: string, tier: Tier, content: string, name': string, tier': Tier, content': string)
    requires Signable(name, tier, content) == Signable(name', tier', content') && |name| < |name'|
    ensures exists r :: Continues(name, tier, content, name', tier', content', r)
  {
    hide TierName, Continues;
    var s, t := Signable(name, tier, content), TierName(tier);
    var n, n' := |name|, |name'|;
    assert s[n'] == '|';
    assert s == name + "|" + (t + "|" + content);
    assert s[n + 1..] == t + "|" + content;
    FirstSeparator(t, content, n' - n - 1);
    var r := s[n + |t| + 2..n' + 1];
    NameParts(name, t, content, name', TierName(tier'), content', r);
    ContinuesBy(name, tier, content, name', tier', content', r);
  }

  lemma ContinuesBy(name: string, tier: Tier, content: string, name': string, tier': Tier, content': string,
                    r: string)
    requires name' + "|" == name + "|" + TierName(tier) + "|" + r
    requires content == r + TierName(tier') + "|" + content'
    ensures Continues(name, tier, content, name', tier', content', r)
  {
  }

  /** A text cut at two places, the later one past the earlier one. */
  lemma NameParts(name: string, t: string, content: string, name': string, t': string, content': string, r: string)
    requires name + "|" + t + "|" + content == name' + "|" + t' + "|" + content'
    requires |name| + |t| + 1 <= |name'|
    requires r == (name + "|" + t + "|" + content)[|name| + |t| + 2..|name'| + 1]
    ensures name' + "|" == name + "|" + t + "|" + r && content == r + t' + "|" + content'
  {
    var s, k := name + "|" + t + "|" + content, |name| + |t| + 2;
    assert s[..k] == name + "|" + t + "|";
    assert s[k..] == content;
    assert s[..|name'| + 1] == name' + "|" && s[..|name'| + 1] == s[..k] + r;
    assert s[|name'| + 1..] == t' + "|" + content';
    assert s[k..] == r + s[|name'| + 1..];
    assert r + (t' + "|" + content') == r + t' + "|" + content';
  }

  /** Among names without the separator, the signed text determines all three. */
  lemma SignableIsInjective(name: string, tier: Tier, content: string, name': string, tier': Tier, content': string)
    requires '|' !in name && '|' !in name'
    requires Signable(name, tier, content) == Signable(name', tier', content')
    ensures name == name' && tier == tier' && content == content'
  {
    hide TierName;
    assert Signable(name, tier, content) == name + "|" + (TierName(tier) + "|" + content);
    assert Signable(name', tier', content') == name' + "|" + (TierName(tier') + "|" + content');
    FirstPart(name, TierName(tier) + "|" + content, name', TierName(tier') + "|" + content');
    TierIsRead(tier, content, tier', content');
  }

  /** With the separator in a name, different documents can share a signed text. */
  lemma SeparatorConfuses(name: string, content: string)
    ensures Signable(name + "|" + TierName(Constitutional), Constitutional, content)
         == Signable(name, Constitutional, TierName(Constitutional) + "|" + content)
  {
  }

  /** A document is accepted exactly when its signature was made by the key's owner for
      this name, this tier and this content. */
  lemma AcceptedIsSigned(key: PublicKey, docs: Docs, sigs: Sigs, name: string, signer: SigningKey, name0: string,
                         tier0: Tier, content0: string)
    requires '|' !in name && '|' !in name0
    requires Loaded(docs, sigs, name).Ok?
    requires sigs[name].meta.signature == SignDocument(signer, name0, content0, tier0).signature
    ensures Accepted(key, docs, sigs, name)
       <==> PublicOf(signer) == key && name == name0 && sigs[name].meta.tier == tier0
            && docs[name] == Text(content0)
  {
    hide Signable;
    if Accepted(key, docs, sigs, name) {
      SignableIsInjective(name, sigs[name].meta.tier, docs[name].content, name0, tier0, content0);
    }
  }

  lemma {:induction false} SignedFromKeeps(key: SigningKey, docs: Docs, sigs: Sigs, writes: nat -> AtomicWrite, i: nat,
                                           j: nat)
    requires j < i <= |REQUIRED_DOCS|
    ensures SameSig(SignedFrom(key, docs, sigs, writes, i).0, sigs, j)
    decreases |REQUIRED_DOCS| - i
  {
    hide SignatureOf, SigningError;
    if i < |REQUIRED_DOCS| {
      RequiredNamesDiffer(j, i);
      SignedFromKeeps(key, docs, WithSignature(key, docs, sigs, i, writes(i)), writes, i + 1, j);
    }
  }

  predicate SameSig(a: Sigs, b: Sigs, j: nat)
    requires j < |REQUIRED_DOCS|
  {
    var name := REQUIRED_DOCS[j];
    (name in a <==> name in b) && (name in a ==> a[name] == b[name])
  }

  lemma SameSigSameVerdict(key: PublicKey, docs: Docs, a: Sigs, b: Sigs, j: nat)
    requires j < |REQUIRED_DOCS| && SameSig(a, b, j)
    ensures Accepted(key, docs, a, REQUIRED_DOCS[j]) <==> Accepted(key, docs, b, REQUIRED_DOCS[j])
  {
  }

  lemma RequiredNamesDiffer(i: nat, j: nat)
    requires i < |REQUIRED_DOCS| && j < |REQUIRED_DOCS| && i != j
    ensures REQUIRED_DOCS[i] != REQUIRED_DOCS[j]
  {
    assert REQUIRED_DOCS[i][0] != REQUIRED_DOCS[j][0];
  }

  /** A document that is not there or cannot be read is never accepted; one that has just
      been signed is; another is as it was. */
  lemma SignatureVerdict(key: SigningKey, docs: Docs, sigs: Sigs, i: nat, write: AtomicWrite, j: nat)
    requires i < |REQUIRED_DOCS| && j < |REQUIRED_DOCS|
    ensures Accepted(PublicOf(key), docs, WithSignature(key, docs, sigs, i, write), REQUIRED_DOCS[j])
       <==> (i == j && SigningError(docs, i, Done).None? && write != Kept)
            || Accepted(PublicOf(key), docs, sigs, REQUIRED_DOCS[j])
  {
    hide Signable;
    if i != j {
      RequiredNamesDiffer(i, j);
    }
  }

  /** From the `i`-th document on, the `j`-th gets its signature. */
  ghost predicate SignsThrough(docs: Docs, writes: nat -> AtomicWrite, i: nat, j: nat)
    requires i <= j < |REQUIRED_DOCS|
  {
    && (forall k :: i <= k < j ==> SigningError(docs, k, writes(k)).None?)
    && SigningError(docs, j, Done).None? && writes(j) != Kept
  }

  /** After signing, whether it succeeded or stopped, a document is accepted under the
      signer's public key exactly when its own turn came and its signature was written,
      or when it was accepted before. */
  lemma {:induction false} SignedIsAcceptedExactly(key: SigningKey, docs: Docs, sigs: Sigs,
                                                   writes: nat -> AtomicWrite, i: nat, j: nat)
    requires i <= j < |REQUIRED_DOCS|
    ensures Accepted(PublicOf(key), docs, SignedFrom(key, docs, sigs, writes, i).0, REQUIRED_DOCS[j])
       <==> SignsThrough(docs, writes, i, j) || Accepted(PublicOf(key), docs, sigs, REQUIRED_DOCS[j])
    decreases |REQUIRED_DOCS| - i
  {
    hide SignatureOf, Accepted, SigningError, WithSignature, SignsThrough;
    var sigs1 := WithSignature(key, docs, sigs, i, writes(i));
    SignatureVerdict(key, docs, sigs, i, writes(i), j);
    SignsThroughStep(docs, writes, i, j);
    if SigningError(docs, i, writes(i)).None? {
      if i == j {
        SignedFromKeeps(key, docs, sigs1, writes, i + 1, j);
        SameSigSameVerdict(PublicOf(key), docs, SignedFrom(key, docs, sigs1, writes, i + 1).0, sigs1, j);
      } else {
        SignedIsAcceptedExactly(key, docs, sigs1, writes, i + 1, j);
      }
    }
  }

  lemma SignsThroughStep(docs: Docs, writes: nat -> AtomicWrite, i: nat, j: nat)
    requires i <= j < |REQUIRED_DOCS|
    ensures if i == j then SignsThrough(docs, writes, i, j) <==> SigningError(docs, i, Done).None? && writes(i) != Kept
            else SignsThrough(docs, writes, i, j)
                 <==> SigningError(docs, i, writes(i)).None? && SignsThrough(docs, writes, i + 1, j)
  {
    hide SigningError;
  }

  /** Signing succeeds exactly when all three documents are readable and their
      signatures are written, and then the soul is accepted. */
  lemma SigningExactly(key: SigningKey, docs: Docs, sigs: Sigs, writes: nat -> AtomicWrite)
    ensures SignedFrom(key, docs, sigs, writes, 0).1.None?
       <==> forall i :: 0 <= i < |REQUIRED_DOCS| ==> SigningError(docs, i, writes(i)).None?
    ensures SignedFrom(key, docs, sigs, writes, 0).1.None? ==>
              SoulAccepted(PublicOf(key), docs, SignedFrom(key, docs, sigs, writes, 0).0)
  {
    hide Accepted, SignatureOf, WithSignature, SignedFrom;
    SigningSucceeds(key, docs, sigs, writes, 0);
    if SignedFrom(key, docs, sigs, writes, 0).1.None? {
      forall j | 0 <= j < |REQUIRED_DOCS|
        ensures Accepted(PublicOf(key), docs, SignedFrom(key, docs, sigs, writes, 0).0, REQUIRED_DOCS[j])
      {
        assert SigningError(docs, j, writes(j)).None?;
        SignedIsAcceptedExactly(key, docs, sigs, writes, 0, j);
      }
    }
  }

  lemma {:induction false} SigningSucceeds(key: SigningKey, docs: Docs, sigs: Sigs, writes: nat -> AtomicWrite, i: nat)
    requires i <= |REQUIRED_DOCS|
    ensures SignedFrom(key, docs, sigs, writes, i).1.None?
       <==> forall j :: i <= j < |REQUIRED_DOCS| ==> SigningError(docs, j, writes(j)).None?
    decreases |REQUIRED_DOCS| - i
  {
    hide SigningError, SignatureOf, WithSignature;
    if i < |REQUIRED_DOCS| {
      SigningSucceeds(key, docs, WithSignature(key, docs, sigs, i, writes(i)), writes, i + 1);
    }
  }
}
