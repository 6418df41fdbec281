/** Finding and loading the checkpoint with the longest text that is a prefix of the prompt. */
module KvLookup {
  import opened Bytes
  import opened Options
  import opened KvHeader
  import KvEvict

  type Entry = KvEvict.Entry
  type Tokens = seq<int>

  // What a lookup is asked for; `sha` is whatever hash the file names were made with.
  datatype Query = Query(
    prompt: seq<Byte>, quantBits: int, ctxSize: nat, minTokens: int, rejectOtherQuant: bool, sha: seq<Byte> -> string)

  /** A 32-bit token count read as a signed int. */
  function AsInt(n: nat): int {
    if n < 0x8000_0000 then n else n - 0x1_0000_0000
  }

  /** The checks that do not need the hash. */
  predicate Candidate(q: Query, e: Entry) {
    && e.textBytes <= |q.prompt|
    && AsInt(e.tokens) >= q.minTokens
    && e.ctxSize <= q.ctxSize
    && (q.rejectOtherQuant ==> e.quantBits == q.quantBits)
  }

  predicate Eligible(q: Query, e: Entry) {
    Candidate(q, e) && q.sha(q.prompt[..e.textBytes]) == e.sha
  }

  /** `a` is the better match: more text, or as much text and more tokens. */
  predicate Better(a: Entry, b: Entry) {
    a.textBytes > b.textBytes || (a.textBytes == b.textBytes && a.tokens > b.tokens)
  }

  /** `r` is the first best eligible entry among the first `n`. */
  ghost predicate BestOf(q: Query, es: seq<Entry>, n: nat, r: Option<nat>)
    requires n <= |es|
  {
    match r
    case None => forall i :: 0 <= i < n ==> !Eligible(q, es[i])
    case Some(b) =>
      && b < n && Eligible(q, es[b])
      && (forall i :: 0 <= i < n && Eligible(q, es[i]) ==> !Better(es[i], es[b]))
      && (forall i :: 0 <= i < b && Eligible(q, es[i]) ==> Better(es[b], es[i]))
  }

  /** The scan hashes a prefix only when the entry would improve on the best one so far; the
      pruning never changes the answer. */
  method FindTextPrefix(q: Query, es: seq<Entry>) returns (r: Option<nat>)
    ensures BestOf(q, es, |es|, r)
  {
    r := None;
    var i := 0;
    while i < |es|
      invariant 0 <= i <= |es| && BestOf(q, es, i, r)
    {
      var e := es[i];
      if Candidate(q, e) && (r.None? || Better(e, es[r.value])) {
        if q.sha(q.prompt[..e.textBytes]) == e.sha { r := Some(i); }
      }
      i := i + 1;
    }
  }

  /** The answer is determined: there is one first best entry. */
  lemma BestUnique(q: Query, es: seq<Entry>, r: Option<nat>, s: Option<nat>)
    requires BestOf(q, es, |es|, r) && BestOf(q, es, |es|, s)
    ensures r == s
  {
  }

  // ---------- loading ----------

  // A file that can be read this far: its header and its whole stored text.
  datatype Stored = Stored(header: Header, text: seq<Byte>)

  function ReadStored(f: seq<Byte>): Option<Stored> {
    match Decode(f)
    case None => None
    case Some((h, textBytes)) =>
      if |f| < FIXED_HEADER + 4 + textBytes then None
      else Some(Stored(h, f[FIXED_HEADER + 4..FIXED_HEADER + 4 + textBytes]))
  }

  // The live session: its tokens count only while it is valid.
  datatype Session = Session(tokens: Tokens, valid: bool)

  // What the engine makes of the payload: the tokens it holds, or a failure.
  datatype PayloadResult = PayloadOk(tokens: Tokens) | PayloadFailed

  // The outcome of a load, with the file as it is left (None when it was deleted).
  datatype LoadResult = LoadResult(loaded: int, effective: Tokens, session: Session, file: Option<seq<Byte>>)

  predicate IsPrefix(a: seq<Byte>, b: seq<Byte>) {
    |a| <= |b| && b[..|a|] == a
  }

  /** The checks on the opened file: its text is not longer than the prompt, still has the hash
      in the file's name, and is a byte prefix of the prompt. */
  predicate TextChecks(q: Query, e: Entry, text: seq<Byte>) {
    |text| <= |q.prompt| && q.sha(text) == e.sha && IsPrefix(text, q.prompt)
  }

  /** Loading the entry that was found from the file as it is now. */
  function Load(q: Query, e: Entry, f: Option<seq<Byte>>, s: Session, payload: PayloadResult,
                coldMax: int, now: nat, tokenize: seq<Byte> -> Tokens): LoadResult
  {
    if f.None? then LoadResult(0, [], s, None)
    else match ReadStored(f.value)
      case None => LoadResult(0, [], s, f)
      case Some(stored) =>
        if !TextChecks(q, e, stored.text) then LoadResult(0, [], s, f)
        else match payload
          case PayloadFailed => LoadResult(0, [], Session([], false), f)
          case PayloadOk(tokens) =>
            var n := AsInt(stored.header.tokens);
            if |tokens| != n then LoadResult(0, [], Session([], false), None)
            else
              LoadResult(n, tokens + tokenize(q.prompt[|stored.text|..]), Session(tokens, true),
                         if coldMax > 0 && n > coldMax then None
                         else Some(Touch(f.value, (stored.header.hits + 1) % U32, now)))
  }

  /** Whatever the hash function is, and whatever happened to the file since it was found: a
      successful load means that the stored text is a byte prefix of the prompt, that the
      session holds exactly the payload's tokens, and that the effective prompt is those tokens
      followed by the tokenised rest of the text.  A failed one never leaves other tokens live. */
  lemma LoadIsSound(q: Query, e: Entry, f: Option<seq<Byte>>, s: Session, payload: PayloadResult,
                    coldMax: int, now: nat, tokenize: seq<Byte> -> Tokens)
    ensures var r := Load(q, e, f, s, payload, coldMax, now, tokenize);
            r.loaded != 0 ==>
              && f.Some? && ReadStored(f.value).Some? && payload.PayloadOk?
              && var text := ReadStored(f.value).value.text;
              && text + q.prompt[|text|..] == q.prompt
              && r.session == Session(payload.tokens, true) && |payload.tokens| == r.loaded
              && r.effective == payload.tokens + tokenize(q.prompt[|text|..])
    ensures var r := Load(q, e, f, s, payload, coldMax, now, tokenize);
            r.loaded == 0 ==> r.effective == [] && (r.session == s || !r.session.valid)
  {
    hide Decode, Touch;
    NonzeroTokens(f);
    if f.Some? && ReadStored(f.value).Some? && IsPrefix(ReadStored(f.value).value.text, q.prompt) {
      var n := |ReadStored(f.value).value.text|;
      assert q.prompt == q.prompt[..n] + q.prompt[n..];
    }
  }

  /** A readable file has a nonzero token count, also as a signed number. */
  lemma NonzeroTokens(f: Option<seq<Byte>>)
    ensures f.Some? && ReadStored(f.value).Some? ==> AsInt(ReadStored(f.value).value.header.tokens) != 0
  {
    if f.Some? && Decode(f.value).Some? { DecodedFits(f.value); }
  }

  /** A hit leaves the file usable: unless it was consumed, the same text, tokens and payload
      can be read again, with one more hit and the new time. */
  lemma {:induction false} HitKeepsFile(q: Query, e: Entry, f: seq<Byte>, s: Session, payload: PayloadResult,
                     coldMax: int, now: nat, tokenize: seq<Byte> -> Tokens)
    requires now < U64
    ensures var r := Load(q, e, Some(f), s, payload, coldMax, now, tokenize);
            r.loaded != 0 && r.file.Some? ==>
              && ReadStored(f).Some?
              && var was := ReadStored(f).value;
              && ReadStored(r.file.value)
                 == Some(was.(header := was.header.(hits := (was.header.hits + 1) % U32, lastUsed := now)))
              && r.file.value[FIXED_HEADER..] == f[FIXED_HEADER..]
  {
    hide Decode, Touch;
    if ReadStored(f).Some? {
      var was := ReadStored(f).value;
      var g := Touch(f, (was.header.hits + 1) % U32, now);
      TouchChangesOnlyUse(f, (was.header.hits + 1) % U32, now);
      var n := Decode(f).value.1;
      assert g[FIXED_HEADER + 4..FIXED_HEADER + 4 + n] == g[FIXED_HEADER..][4..4 + n];
      assert f[FIXED_HEADER + 4..FIXED_HEADER + 4 + n] == f[FIXED_HEADER..][4..4 + n];
    }
  }

  /** What a load leaves of the file: it is deleted exactly when its payload holds another number
      of tokens than the header says, or when a hit is longer than the cold limit; any other hit
      writes the use fields, and any other miss changes nothing. */
  lemma {:induction false} LoadLeaves(q: Query, e: Entry, f: seq<Byte>, s: Session, payload: PayloadResult,
                                      coldMax: int, now: nat, tokenize: seq<Byte> -> Tokens)
    ensures var r := Load(q, e, Some(f), s, payload, coldMax, now, tokenize);
            && (r.loaded != 0 <==>
                  && payload.PayloadOk? && ReadStored(f).Some?
                  && TextChecks(q, e, ReadStored(f).value.text)
                  && |payload.tokens| == AsInt(ReadStored(f).value.header.tokens))
            && (r.loaded != 0 ==>
                  r.file == if coldMax > 0 && r.loaded > coldMax then None
                            else Some(Touch(f, (ReadStored(f).value.header.hits + 1) % U32, now)))
            && (r.loaded == 0 ==>
                  r.file == if payload.PayloadOk? && ReadStored(f).Some? && TextChecks(q, e, ReadStored(f).value.text)
                            then None else Some(f))
  {
    hide Decode, Touch, TextChecks;
    NonzeroTokens(Some(f));
  }

  /** The scan trusts the hash, the load does not: with an unchanged file whose text hashes to
      its name, the text checks hold exactly when the stored text is the prefix that was hashed. */
  lemma FoundThenLoaded(q: Query, es: seq<Entry>, b: nat, text: seq<Byte>)
    requires BestOf(q, es, |es|, Some(b))
    requires |text| == es[b].textBytes && q.sha(text) == es[b].sha
    ensures TextChecks(q, es[b], text) <==> text == q.prompt[..es[b].textBytes]
  {
  }

  // ---------- store, then load ----------

  /** A checkpoint file: header, text length, text, payload. */
  function FileFor(h: Header, text: seq<Byte>, payload: seq<Byte>): seq<Byte> {
    Encode(h) + (Le(|text|, 4) + (text + payload))
  }

  lemma {:induction false} StoredReads(h: Header, text: seq<Byte>, payload: seq<Byte>)
    requires h.Fits() && |text| < U32
    requires h.tokens != 0 && (h.quantBits == 2 || h.quantBits == 4) && h.reason <= REASON_AGENT_SESSION
    ensures ReadStored(FileFor(h, text, payload)) == Some(Stored(h, text))
  {
    hide Decode, Encode, Le;
    HeaderRoundTrip(h, |text|, text + payload);
    var f := FileFor(h, text, payload);
    assert f[52..52 + |text|] == text;
  }

  /** Store, lookup and load together.  A session's tokens were stored under the hash of their
      rendered text.  Loading that file for a prompt succeeds exactly when the text is a byte
      prefix of the prompt, and then the effective prompt is the very tokens that were stored and
      more, and renders to the prompt, as long as tokenising is undone by rendering. */
  lemma {:induction false} StoredThenLoaded(
    q: Query, e: Entry, h: Header, tokens: Tokens, payload: seq<Byte>, s: Session,
    coldMax: int, now: nat, tokenize: seq<Byte> -> Tokens, render: Tokens -> seq<Byte>)
    requires h.Fits() && |render(tokens)| < U32 && |tokens| == AsInt(h.tokens) && h.tokens != 0
    requires (h.quantBits == 2 || h.quantBits == 4) && h.reason <= REASON_AGENT_SESSION
    requires e.sha == q.sha(render(tokens))
    requires forall a, text :: render(a + tokenize(text)) == render(a) + text
    ensures var f := FileFor(h, render(tokens), payload);
            var r := Load(q, e, Some(f), s, PayloadOk(tokens), coldMax, now, tokenize);
            && (r.loaded != 0 <==> IsPrefix(render(tokens), q.prompt))
            && (r.loaded != 0 ==> r.loaded == |tokens| && tokens <= r.effective && render(r.effective) == q.prompt)
  {
    hide Decode, Encode, Touch, FileFor;
    var text := render(tokens);
    StoredReads(h, text, payload);
    if IsPrefix(text, q.prompt) {
      assert render(tokens + tokenize(q.prompt[|text|..])) == text + q.prompt[|text|..];
      assert text + q.prompt[|text|..] == q.prompt;
    }
  }

  // ---------- the lookup as it runs ----------

  function FileOf(files: map<string, seq<Byte>>, sha: string): Option<seq<Byte>> {
    if sha in files then Some(files[sha]) else None
  }

  function WithFile(files: map<string, seq<Byte>>, sha: string, f: Option<seq<Byte>>): map<string, seq<Byte>> {
    match f
    case Some(content) => files[sha := content]
    case None => map s | s in files && s != sha :: files[s]
  }

  class Store {
    var enabled: bool
    var files: map<string, seq<Byte>>  // by the hash in the file's name
    var session: Session

    constructor (files: map<string, seq<Byte>>, session: Session)
      ensures this.files == files && this.session == session && enabled
    {
      this.files, this.session, enabled := files, session, true;
    }

    /** Find the best checkpoint for a prompt and load it.  `index` is what the directory scan
        found; the files may have changed since. */
    method TryLoadText(q: Query, index: seq<Entry>, payload: PayloadResult, coldMax: int, now: nat,
                       tokenize: seq<Byte> -> Tokens)
      returns (loaded: int, effective: Tokens)
      modifies `files, `session
      ensures loaded == 0 ==> effective == [] && (session == old(session) || !session.valid)
      ensures loaded != 0 ==>
                exists b: nat ::
                  && BestOf(q, index, |index|, Some(b)) && b < |index|
                  && FileOf(old(files), index[b].sha).Some?
                  && ReadStored(FileOf(old(files), index[b].sha).value).Some?
                  && var text := ReadStored(FileOf(old(files), index[b].sha).value).value.text;
                  && |text| <= |q.prompt| && text + q.prompt[|text|..] == q.prompt
                  && session.valid && |session.tokens| == loaded
                  && effective == session.tokens + tokenize(q.prompt[|text|..])
      ensures enabled && (q.quantBits == 2 || q.quantBits == 4) ==>
              forall best: Option<nat> :: BestOf(q, index, |index|, best) ==>
                if best.None? then loaded == 0 && files == old(files) && session == old(session)
                else
                  var sha := index[best.value].sha;
                  var r := Load(q, index[best.value], FileOf(old(files), sha), old(session), payload,
                                coldMax, now, tokenize);
                  loaded == r.loaded && effective == r.effective && session == r.session
                  && files == WithFile(old(files), sha, r.file)
    {
      hide Load, ReadStored;
      loaded, effective := 0, [];
      if !enabled || (q.quantBits != 2 && q.quantBits != 4) { return; }
      var found := FindTextPrefix(q, index);
      forall best: Option<nat> | BestOf(q, index, |index|, best) ensures best == found {
        BestUnique(q, index, best, found);
      }
      if found.None? { return; }
      var e := index[found.value];
      LoadIsSound(q, e, FileOf(files, e.sha), session, payload, coldMax, now, tokenize);
      loaded, effective := LoadEntry(q, e, payload, coldMax, now, tokenize);
    }

    method LoadEntry(q: Query, e: Entry, payload: PayloadResult, coldMax: int, now: nat, tokenize: seq<Byte> -> Tokens)
      returns (loaded: int, effective: Tokens)
      modifies `files, `session
      ensures var r := Load(q, e, FileOf(old(files), e.sha), old(session), payload, coldMax, now, tokenize);
              loaded == r.loaded && effective == r.effective && session == r.session
              && files == WithFile(old(files), e.sha, r.file)
    {
      hide Decode, Touch;
      loaded, effective := 0, [];
      SameFile(files, e.sha);
      if e.sha !in files { return; }
      var f := files[e.sha];
      var stored := ReadStored(f);
      if stored.None? || |stored.value.text| > |q.prompt| { return; }
      var text := stored.value.text;
      if q.sha(text) != e.sha || !IsPrefix(text, q.prompt) { return; }
      match payload
      case PayloadFailed =>
        session := Session([], false);
      case PayloadOk(tokens) =>
        session := Session(tokens, true);
        if |session.tokens| != AsInt(stored.value.header.tokens) {
          session := Session([], false);
          files := map s | s in files && s != e.sha :: files[s];
          return;
        }
        loaded := |session.tokens|;
        effective := session.tokens + tokenize(q.prompt[|text|..]);
        if coldMax > 0 && loaded > coldMax {
          files := map s | s in files && s != e.sha :: files[s];
        } else {
          files := files[e.sha := Touch(f, (stored.value.header.hits + 1) % U32, now)];
        }
    }
  }

  lemma SameFile(files: map<string, seq<Byte>>, sha: string)
    ensures WithFile(files, sha, FileOf(files, sha)) == files
  {
  }
}
