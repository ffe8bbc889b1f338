/**
  The body of a Hyperview response: it is replaced as a whole or not at all, and what is
  sent agrees with the headers.
 */
module ResponseBody {
  import opened Wrappers

  type Octets = seq<bv8>

  const BODYLESS_STATUSES: set<nat> := {204, 205, 304}

  datatype Error = BadMetadata | HttpBody | HttpEncoding | NotRendered | MaxBytes | Malformed | Invalid

  /**
    What the response calls. `validate` is the validation of a document under a contract,
    its failure included; `gunzip` is the content of exactly one complete gzip member.
   */
  datatype Library = Library(validate: (nat, Octets) -> Option<Error>, gunzip: Octets -> Option<Octets>)

  /** A validated document and the contract that accepted it. */
  datatype Checked = Checked(content: Octets, contract: nat)

  // ---------------------------------------------------------------------------
  // Collecting a candidate
  // ---------------------------------------------------------------------------

  /** A piece of content: its length as text or bytes, and its bytes unless it cannot be encoded. */
  datatype Chunk = Chunk(length: nat, encoded: Option<Octets>)

  /** A text has at least as many bytes as characters. */
  predicate Sound(c: Chunk) { c.encoded.Some? ==> c.length <= |c.encoded.value| }

  function Joined(chunks: seq<Chunk>): Option<Octets> {
    if chunks == [] then Some([])
    else
      var rest := Joined(chunks[1..]);
      if chunks[0].encoded.None? || rest.None? then None else Some(chunks[0].encoded.value + rest.value)
  }

  datatype Result<T> = Ok(value: T) | Err(error: Error)

  /**
    `_candidate`: the whole content if it can be encoded and fits the limit. Counting
    characters first never refuses what would fit.
   */
  method Candidate(chunks: seq<Chunk>, prefix: Octets, limit: nat) returns (r: Result<Octets>)
    requires forall i | 0 <= i < |chunks| :: Sound(chunks[i])
    ensures r.Ok? <==> Joined(chunks).Some? && (chunks == [] || |prefix| + |Joined(chunks).value| <= limit)
    ensures r.Ok? ==> r.value == prefix + Joined(chunks).value
  {
    var content := prefix;
    var n := 0;
    assert chunks[0..] == chunks;
    while n < |chunks|
      invariant n <= |chunks| && (n > 0 ==> |content| <= limit)
      invariant Joined(chunks).Some? <==> Joined(chunks[n..]).Some?
      invariant Joined(chunks).Some? ==> prefix + Joined(chunks).value == content + Joined(chunks[n..]).value
    {
      var c := chunks[n];
      assert chunks[n..][0] == c && chunks[n..][1..] == chunks[n + 1..];
      if c.length > limit - |content| {
        return Err(MaxBytes);
      }
      if c.encoded.None? {
        return Err(Malformed);
      }
      content := content + c.encoded.value;
      if |content| > limit {
        return Err(MaxBytes);
      }
      n := n + 1;
    }
    assert content + [] == content;
    r := Ok(content);
  }

  /** `s.lower()`, as far as it can make one of the names of codings. */
  function Lower(s: string): (r: string)
    ensures |r| == |s|
  {
    if s == "" then "" else [if 'A' <= s[0] <= 'Z' then s[0] + 32 as char else s[0]] + Lower(s[1..])
  }

  /** `gzip` in any mixture of upper and lower case. */
  predicate NamesGzip(s: string) {
    && |s| == 4 && s[0] in {'g', 'G'} && s[1] in {'z', 'Z'} && s[2] in {'i', 'I'} && s[3] in {'p', 'P'}
  }

  lemma {:induction false} LowerAt(s: string, i: nat)
    requires i < |s|
    ensures Lower(s)[i] == if 'A' <= s[i] <= 'Z' then s[i] + 32 as char else s[i]
  {
    if i > 0 {
      LowerAt(s[1..], i - 1);
    }
  }

  lemma LowerIsGzip(s: string)
    ensures Lower(s) == "gzip" <==> NamesGzip(s)
  {
    if |s| == 4 {
      LowerAt(s, 0);
      LowerAt(s, 1);
      LowerAt(s, 2);
      LowerAt(s, 3);
      hide Lower;
    }
  }

  // ---------------------------------------------------------------------------
  // The response
  // ---------------------------------------------------------------------------

  class Response {
    const library: Library
    const headRequest: bool
    /** A template response, which has an empty body until it is rendered. */
    const lazy: bool

    var container: Octets
    /** A body has been committed. */
    var rendered: bool
    var gzip: Option<Octets>
    var checked: Option<Checked>
    var headSuppressed: bool

    var status: nat
    var contentEncoding: Option<string>
    var contentLength: Option<nat>
    /** The content type and charset that stand in the headers are acceptable. */
    var metadataOk: bool
    /** The contract that documents are validated against now. */
    var contract: nat

    /** The body is empty or a validated document, and a gzip form decodes to exactly it. */
    ghost predicate Valid()
      reads this
    {
      && (container != [] ==> checked.Some?)
      && (checked.Some? ==>
            && checked.value.content == container && container != []
            && library.validate(checked.value.contract, container) == None)
      && (gzip.Some? ==> checked.Some? && library.gunzip(gzip.value) == Some(container))
      && (!rendered ==> container == [])
    }

    predicate Bodyless()
      reads this
    {
      status in BODYLESS_STATUSES
    }

    constructor (library: Library, headRequest: bool, lazy: bool, status: nat, contract: nat)
      ensures Valid() && this.library == library && this.headRequest == headRequest && this.lazy == lazy
      ensures container == [] && gzip == None && checked == None && !headSuppressed && !rendered
    {
      this.library, this.headRequest, this.lazy := library, headRequest, lazy;
      container, rendered, gzip, checked, headSuppressed := [], false, None, None, false;
      this.status, this.contract := status, contract;
      contentEncoding, contentLength, metadataOk := None, None, true;
    }

    /** Headers, status and contract may change at any time; that is no change of the body. */
    method SetStatus(status: nat)
      requires Valid()
      modifies this`status
      ensures Valid() && this.status == status
    {
      this.status := status;
    }

    method SetHeaders(contentEncoding: Option<string>, contentLength: Option<nat>, metadataOk: bool)
      requires Valid()
      modifies this`contentEncoding, this`contentLength, this`metadataOk
      ensures Valid()
    {
      this.contentEncoding, this.contentLength, this.metadataOk := contentEncoding, contentLength, metadataOk;
    }

    method SetContract(contract: nat)
      requires Valid()
      modifies this`contract
      ensures Valid()
    {
      this.contract := contract;
    }

    /** `_check_body_status`: a body belongs to every status but 204, 205 and 304. */
    function BodyStatus(content: Octets): (e: Option<Error>)
      reads this
    {
      if !metadataOk then Some(BadMetadata)
      else if Bodyless() != (content == []) then Some(HttpBody)
      else None
    }

    /** `_body_content`. */
    function BodyContent(): (r: Result<Octets>)
      reads this
      ensures r.Ok? ==> r.value == container && metadataOk && (Bodyless() <==> container == [])
    {
      if !rendered then Err(NotRendered)
      else if BodyStatus(container).Some? then Err(BodyStatus(container).value)
      else Ok(container)
    }

    /** `content`, when it is read. */
    function Content(): (r: Result<Octets>)
      reads this
    {
      if BodyContent().Err? then BodyContent()
      else if headSuppressed then Ok([])
      else if gzip.Some? then Ok(gzip.value)
      else Ok(container)
    }

    /** Nothing about the stored body has changed. */
    twostate predicate SameBody()
      reads this
    {
      && container == old(container) && rendered == old(rendered) && gzip == old(gzip)
      && checked == old(checked) && headSuppressed == old(headSuppressed) && contentLength == old(contentLength)
    }

    /** `_commit`, for an empty body or one that was just checked. */
    method Commit(content: Octets, ghost origin: Option<Checked>) returns (e: Option<Error>)
      requires Valid()
      requires content == [] <==> origin == None
      requires origin.Some? ==> origin.value.content == content
      modifies this`container, this`rendered, this`gzip, this`checked, this`contentLength
      ensures e == old(BodyStatus(content))
      ensures e.Some? ==> SameBody()
      ensures e.None? ==>
                && container == content && checked == None && gzip == None && rendered
                && contentLength == if old(gzip).Some? then None else old(contentLength)
      ensures e.Some? || content == [] ==> Valid()
    {
      e := BodyStatus(content);
      if e.Some? {
        return;
      }
      if gzip.Some? {
        contentLength := None;
      }
      gzip, checked, container, rendered := None, None, content, true;
    }

    /** `_commit_result`: a document checked under another contract is checked again. */
    method CommitResult(result: Checked) returns (e: Option<Error>)
      requires Valid() && result.content != [] && library.validate(result.contract, result.content) == None
      modifies this`container, this`rendered, this`gzip, this`checked, this`contentLength
      ensures Valid()
      ensures e.Some? ==> SameBody()
      ensures e.None? ==>
                && container == result.content && checked == Some(Checked(result.content, contract))
                && gzip == None && rendered
      ensures e.None? <==> library.validate(contract, result.content) == None && old(BodyStatus(result.content)) == None
    {
      var current := result;
      if result.contract != contract {
        e := library.validate(contract, result.content);
        if e.Some? {
          return;
        }
        current := Checked(result.content, contract);
      }
      e := Commit(current.content, Some(current));
      if e.None? {
        checked := Some(current);
      }
    }

    /** A document that may replace the body now. */
    predicate Settable(content: Octets)
      reads this
    {
      && !(gzip.Some? && contentEncoding.Some?)
      && BodyStatus(content) == None
      && (content == [] || library.validate(contract, content) == None)
    }

    /** Bytes that are the gzip form of the body, which is still valid. */
    predicate Transports(content: Octets)
      reads this
    {
      && checked.Some? && BodyContent().Ok? && library.gunzip(content) == Some(checked.value.content)
      && (checked.value.contract == contract || library.validate(contract, checked.value.content) == None)
    }

    /** `_set_candidate`. */
    method SetCandidate(content: Octets) returns (e: Option<Error>)
      requires Valid()
      modifies this`container, this`rendered, this`gzip, this`checked, this`contentLength
      ensures Valid()
      ensures e.Some? ==> SameBody()
      ensures e.None? ==> container == content && gzip == None && rendered
      ensures e.None? <==> old(Settable(content))
    {
      if gzip.Some? && contentEncoding.Some? {
        return Some(HttpEncoding);
      }
      e := BodyStatus(content);
      if e.Some? {
        return;
      }
      if content == [] {
        e := Commit(content, None);
        return;
      }
      e := library.validate(contract, content);
      if e.Some? {
        return;
      }
      e := CommitResult(Checked(content, contract));
    }

    /** `_set_gzip_transport`: whether the bytes are taken as the gzip form of the body. */
    method SetGzipTransport(content: Octets) returns (taken: bool, e: Option<Error>)
      requires Valid()
      modifies this`gzip, this`checked
      ensures Valid()
      ensures e.Some? || !taken ==> SameBody()
      ensures !taken && e.None? <==> old(checked) == None || !IsGzip(content)
      ensures taken ==> e.None? && gzip == Some(content) && container == old(container)
      ensures taken <==> IsGzip(content) && old(Transports(content))
    {
      if checked == None || !IsGzip(content) {
        return false, None;
      }
      var body := BodyContent();
      if body.Err? {
        return false, Some(body.error);
      }
      if library.gunzip(content) != Some(checked.value.content) {
        return false, Some(HttpEncoding);
      }
      if checked.value.contract != contract {
        e := library.validate(contract, container);
        if e.Some? {
          return false, e;
        }
        checked := Some(Checked(container, contract));
      }
      gzip := Some(content);
      return true, None;
    }

    static predicate IsGzip(content: Octets) { [0x1f, 0x8b] <= content }

    /** Assigning `content`, once the candidate is collected. */
    method Assign(candidate: Octets) returns (e: Option<Error>)
      requires Valid()
      modifies this`container, this`rendered, this`gzip, this`checked, this`contentLength, this`headSuppressed
      ensures Valid()
      ensures e.Some? ==> SameBody()
      ensures var suppresses := candidate == [] && headRequest && old(!Bodyless() && (lazy || rendered));
              var transport := IsGzip(candidate) && old(checked).Some?;
              && (suppresses ==>
                    && (e.None? <==> old(BodyContent()).Ok?)
                    && (e.None? ==> headSuppressed && container == old(container) && gzip == old(gzip)))
              && (!suppresses && transport ==>
                    && (e.None? <==> old(Transports(candidate)))
                    && (e.None? ==> gzip == Some(candidate) && container == old(container)))
              && (!suppresses && !transport ==>
                    && (e.None? <==> old(Settable(candidate)))
                    && (e.None? ==> gzip == None && container == candidate))
    {
      if candidate == [] && headRequest && !Bodyless() && (lazy || rendered) {
        var body := BodyContent();
        if body.Err? {
          return Some(body.error);
        }
        headSuppressed := true;
        return None;
      }
      var taken;
      taken, e := SetGzipTransport(candidate);
      if !taken && e.None? {
        e := SetCandidate(candidate);
      }
    }

    /** `write` and `writelines`. */
    method Write(chunks: seq<Chunk>, limit: nat) returns (e: Option<Error>)
      requires Valid() && forall i | 0 <= i < |chunks| :: Sound(chunks[i])
      modifies this`container, this`rendered, this`gzip, this`checked, this`contentLength
      ensures Valid()
      ensures e.Some? ==> SameBody()
      ensures e.None? <==>
                && old(BodyContent()).Ok? && Joined(chunks).Some?
                && (chunks == [] || |old(container)| + |Joined(chunks).value| <= limit)
                && old(Settable(container + Joined(chunks).value))
      ensures e.None? ==> container == old(container) + Joined(chunks).value && gzip == None && rendered
    {
      var body := BodyContent();
      if body.Err? {
        return Some(body.error);
      }
      var candidate := Candidate(chunks, body.value, limit);
      if candidate.Err? {
        return Some(candidate.error);
      }
      e := SetCandidate(candidate.value);
    }

    /** The commit of `render`, for what the template rendered: `None` without a body. */
    method Render(result: Option<Checked>) returns (e: Option<Error>)
      requires Valid()
      requires result.Some? ==> result.value.content != [] && library.validate(result.value.contract, result.value.content) == None
      modifies this`container, this`rendered, this`gzip, this`checked, this`contentLength
      ensures Valid()
      ensures e.Some? || old(rendered) ==> SameBody()
      ensures e.None? <==>
                || old(rendered)
                || (result.None? && old(BodyStatus([])) == None)
                || (result.Some? && old(BodyStatus(result.value.content)) == None
                    && library.validate(contract, result.value.content) == None)
      ensures e.None? && !old(rendered) ==>
                rendered && gzip == None && container == if result.None? then [] else result.value.content
    {
      e := None;
      if rendered {
        return;
      }
      if result.None? {
        e := Commit([], None);
      } else {
        e := CommitResult(result.value);
      }
    }

    /** The Content-Encoding in lower case; "" without one. */
    function Coding(): string
      reads this
    {
      if contentEncoding.None? then "" else Lower(contentEncoding.value)
    }

    /** What a receiver makes of the bytes; names of codings are not case-sensitive. */
    ghost function Received(content: Octets): Option<Octets>
      reads this
    {
      if Coding() == "gzip" then library.gunzip(content) else Some(content)
    }

    /** `_emission_content`. */
    method Emission() returns (r: Result<Octets>)
      requires Valid()
      ensures r.Ok? <==>
              && BodyContent().Ok?
              && (Bodyless() || (Coding() in {"", "identity", "gzip"} && (gzip.Some? <==> Coding() == "gzip")))
      ensures r.Ok? && Bodyless() ==> r.value == [] && container == []
      ensures r.Ok? && !Bodyless() && headSuppressed ==> r.value == []
      ensures r.Ok? && !Bodyless() && !headSuppressed ==>
                && Received(r.value) == Some(container)
                && container != [] && checked.Some? && library.validate(checked.value.contract, container) == None
      ensures r.Ok? && !Bodyless() ==>
                (gzip.Some? <==> contentEncoding.Some? && NamesGzip(contentEncoding.value))
    {
      if contentEncoding.Some? {
        LowerIsGzip(contentEncoding.value);
      }
      r := Content();
      if r.Err? || Bodyless() {
        return;
      }
      var encoding := Coding();
      if encoding != "" && encoding != "identity" && encoding != "gzip" {
        return Err(HttpEncoding);
      }
      if gzip.Some? != (encoding == "gzip") {
        return Err(HttpEncoding);
      }
    }
  }
}
