/**
 The message vocabulary of a client that speaks JSON-RPC 2.0 to a Language
 Server Protocol server: the closed set of LSP methods the client knows, the
 two tables that translate between a method and its wire string, and the
 request, response and error envelopes that carry them.
 */
module JsonRpc {
  import opened Wrappers

  /** Rust's `u64`: the request and response id. */
  type U64 = x: int | 0 <= x < 0x1_0000_0000_0000_0000

  /** Rust's `i32`: the error code. */
  type I32 = x: int | -0x8000_0000 <= x < 0x8000_0000

  // ---------------------------------------------------------------------------
  // The method registry
  // ---------------------------------------------------------------------------

  /** The LSP methods the client supports, in declaration order. The set is
      closed: nothing can be registered at run time. */
  datatype LspMethod =
    | Initialize
    | Shutdown
    | DidChange
    | DidOpen
    | DidClose
    | Hover
    | Completion
    | SignatureHelp
    | Definition
    | References
    | DocumentSymbol
    | DocumentHighlights
    | DocumentFormatting
    | RangeFormatting
    | OnTypeFormatting
    | CodeAction
    | WorkspaceSymbol
    | WorkspaceReferences
    | Rename
    | PrepareRename
    | ExecuteCommand

  /** Every variant, once each, in declaration order. */
  function AllMethods(): (ms: seq<LspMethod>)
    ensures |ms| == 21
    ensures forall i, j :: 0 <= i < j < |ms| ==> ms[i] != ms[j]
  {
    [Initialize, Shutdown, DidChange, DidOpen, DidClose, Hover, Completion,
     SignatureHelp, Definition, References, DocumentSymbol, DocumentHighlights,
     DocumentFormatting, RangeFormatting, OnTypeFormatting, CodeAction,
     WorkspaceSymbol, WorkspaceReferences, Rename, PrepareRename, ExecuteCommand]
  }

  /** The enumeration is closed: `AllMethods` lists every variant. */
  lemma AllMethodsComplete(m: LspMethod)
    ensures m in AllMethods()
  {
    match m
    case Initialize =>
    case Shutdown =>
    case DidChange =>
    case DidOpen =>
    case DidClose =>
    case Hover =>
    case Completion =>
    case SignatureHelp =>
    case Definition =>
    case References =>
    case DocumentSymbol =>
    case DocumentHighlights =>
    case DocumentFormatting =>
    case RangeFormatting =>
    case OnTypeFormatting =>
    case CodeAction =>
    case WorkspaceSymbol =>
    case WorkspaceReferences =>
    case Rename =>
    case PrepareRename =>
    case ExecuteCommand =>
  }

  predicate HasPrefix(s: string, prefix: string) {
    |prefix| <= |s| && s[..|prefix|] == prefix
  }

  /** The encoding table: the exact, case-sensitive wire string of each method.
      Two entries differ from the LSP standard's names: `DocumentHighlights`
      ends in a plural `s`, and `WorkspaceReferences` has no standard method. */
  function ToString(m: LspMethod): (r: string)
  {
    match m
    case Initialize => "initialize"
    case Shutdown => "shutdown"
    case DidChange => "textDocument/didChange"
    case DidOpen => "textDocument/didOpen"
    case DidClose => "textDocument/didClose"
    case Hover => "textDocument/hover"
    case Completion => "textDocument/completion"
    case SignatureHelp => "textDocument/signatureHelp"
    case Definition => "textDocument/definition"
    case References => "textDocument/references"
    case DocumentSymbol => "textDocument/documentSymbol"
    case DocumentHighlights => "textDocument/documentHighlights"
    case DocumentFormatting => "textDocument/formatting"
    case RangeFormatting => "textDocument/rangeFormatting"
    case OnTypeFormatting => "textDocument/onTypeFormatting"
    case CodeAction => "textDocument/codeAction"
    case WorkspaceSymbol => "workspace/symbol"
    case WorkspaceReferences => "workspace/references"
    case Rename => "textDocument/rename"
    case PrepareRename => "textDocument/prepareRename"
    case ExecuteCommand => "workspace/executeCommand"
  }

  /** Every wire string is a lifecycle method or lives in the
      `textDocument/` or `workspace/` namespace. */
  lemma WireStringShape(m: LspMethod)
    ensures var r := ToString(m);
      r == "initialize" || r == "shutdown"
      || HasPrefix(r, "textDocument/") || HasPrefix(r, "workspace/")
  {
    match m
    case Initialize =>
    case Shutdown =>
    case DidChange =>
    case DidOpen =>
    case DidClose =>
    case Hover =>
    case Completion =>
    case SignatureHelp =>
    case Definition =>
    case References =>
    case DocumentSymbol =>
    case DocumentHighlights =>
    case DocumentFormatting =>
    case RangeFormatting =>
    case OnTypeFormatting =>
    case CodeAction =>
    case WorkspaceSymbol =>
    case WorkspaceReferences =>
    case Rename =>
    case PrepareRename =>
    case ExecuteCommand =>
  }

  /** The decoding table, written separately from the encoding table: a
      string that is not one of the wire strings decodes to `None`, and a
      recognised one decodes to the method whose encoding it is. */
  function FromStr(s: string): (r: Option<LspMethod>)
    ensures r.Some? ==> ToString(r.value) == s
    ensures r.None? ==> forall m: LspMethod :: ToString(m) != s
  {
    if s == "initialize" then Some(Initialize)
    else if s == "shutdown" then Some(Shutdown)
    else if s == "textDocument/didChange" then Some(DidChange)
    else if s == "textDocument/didOpen" then Some(DidOpen)
    else if s == "textDocument/didClose" then Some(DidClose)
    else if s == "textDocument/hover" then Some(Hover)
    else if s == "textDocument/completion" then Some(Completion)
    else if s == "textDocument/signatureHelp" then Some(SignatureHelp)
    else if s == "textDocument/definition" then Some(Definition)
    else if s == "textDocument/references" then Some(References)
    else if s == "textDocument/documentSymbol" then Some(DocumentSymbol)
    else if s == "textDocument/documentHighlights" then Some(DocumentHighlights)
    else if s == "textDocument/formatting" then Some(DocumentFormatting)
    else if s == "textDocument/rangeFormatting" then Some(RangeFormatting)
    else if s == "textDocument/onTypeFormatting" then Some(OnTypeFormatting)
    else if s == "textDocument/codeAction" then Some(CodeAction)
    else if s == "workspace/symbol" then Some(WorkspaceSymbol)
    else if s == "workspace/references" then Some(WorkspaceReferences)
    else if s == "textDocument/rename" then Some(Rename)
    else if s == "textDocument/prepareRename" then Some(PrepareRename)
    else if s == "workspace/executeCommand" then Some(ExecuteCommand)
    else None
  }

  /** No two methods share a wire string. */
  lemma ToStringInjective(a: LspMethod, b: LspMethod)
    ensures ToString(a) == ToString(b) ==> a == b
  {
    match a
    case Initialize =>
    case Shutdown =>
    case DidChange =>
    case DidOpen =>
    case DidClose =>
    case Hover =>
    case Completion =>
    case SignatureHelp =>
    case Definition =>
    case References =>
    case DocumentSymbol =>
    case DocumentHighlights =>
    case DocumentFormatting =>
    case RangeFormatting =>
    case OnTypeFormatting =>
    case CodeAction =>
    case WorkspaceSymbol =>
    case WorkspaceReferences =>
    case Rename =>
    case PrepareRename =>
    case ExecuteCommand =>
  }

  /** Encoding and then decoding gives back the method. */
  lemma EncodeThenDecode(m: LspMethod)
    ensures FromStr(ToString(m)) == Some(m)
  {
    // The decoder accepts the string, since `m` encodes to it, and what it
    // returns encodes to the same string, so it is `m` itself.
    var r := FromStr(ToString(m));
    ToStringInjective(r.value, m);
  }

  /** The two tables describe the same relation: a string decodes to a
      method exactly when that method encodes to the string. */
  lemma DecodeIffEncode(s: string, m: LspMethod)
    ensures FromStr(s) == Some(m) <==> ToString(m) == s
  {
    if ToString(m) == s {
      EncodeThenDecode(m);
    }
  }

  /** The set of wire strings the registry knows. */
  function WireStrings(): (ws: set<string>) {
    set m | m in AllMethods() :: ToString(m)
  }

  /** The wire strings are exactly the strings the decoder accepts. */
  lemma WireStringsDecodable(s: string)
    ensures s in WireStrings() <==> FromStr(s).Some?
  {
    if FromStr(s).Some? {
      AllMethodsComplete(FromStr(s).value);
    }
    if s in WireStrings() {
      var m :| m in AllMethods() && ToString(m) == s;
      EncodeThenDecode(m);
    }
  }

  /** A list of methods whose encodings under `f` are pairwise distinct has
      as many distinct encodings as entries. */
  lemma {:induction false} ImageCardinality(xs: seq<LspMethod>, f: LspMethod -> string)
    requires forall i, j :: 0 <= i < j < |xs| ==> f(xs[i]) != f(xs[j])
    ensures |set x | x in xs :: f(x)| == |xs|
  {
    if xs != [] {
      var tail := xs[1..];
      assert forall i, j :: 0 <= i < j < |tail| ==> f(tail[i]) != f(tail[j]) by {
        forall i, j | 0 <= i < j < |tail|
          ensures f(tail[i]) != f(tail[j])
        {
          assert tail[i] == xs[i + 1] && tail[j] == xs[j + 1];
        }
      }
      ImageCardinality(tail, f);
      var rest := set x | x in tail :: f(x);
      assert (set x | x in xs :: f(x)) == rest + {f(xs[0])} by {
        assert xs == [xs[0]] + tail;
      }
      assert f(xs[0]) !in rest by {
        forall k | 0 <= k < |tail|
          ensures f(tail[k]) != f(xs[0])
        {
          assert tail[k] == xs[k + 1];
        }
      }
    }
  }

  /** Exactly 21 distinct strings are recognised: one per method. */
  lemma WireStringCount()
    ensures |WireStrings()| == 21
  {
    var ms := AllMethods();
    var encode: LspMethod -> string := ToString;
    forall i, j | 0 <= i < j < |ms|
      ensures encode(ms[i]) != encode(ms[j])
    {
      ToStringInjective(ms[i], ms[j]);
    }
    ImageCardinality(ms, encode);
    assert WireStrings() == set m | m in ms :: encode(m);
  }

  /** Strings outside the table are rejected, among them the variant's own
      name and the standard LSP spellings the table does not use. */
  lemma RejectsUnknownStrings()
    ensures FromStr("") == None
    ensures FromStr("not/a/method") == None
    ensures FromStr("Initialize") == None
    ensures FromStr("INITIALIZE") == None
    ensures FromStr("textDocument/documentHighlight") == None
    ensures FromStr("workspace/symbol/") == None
  {
  }

  /** Selected table entries, including the two non-standard spellings. */
  lemma TableEntries()
    ensures ToString(Initialize) == "initialize"
    ensures ToString(DidChange) == "textDocument/didChange"
    ensures ToString(DocumentFormatting) == "textDocument/formatting"
    ensures ToString(WorkspaceSymbol) == "workspace/symbol"
    ensures ToString(DocumentHighlights) == "textDocument/documentHighlights"
    ensures ToString(WorkspaceReferences) == "workspace/references"
  {
  }

  // ---------------------------------------------------------------------------
  // The envelopes
  // ---------------------------------------------------------------------------

  /** The JSON-RPC 2.0 request object (section 4 of the JSON-RPC 2.0
      specification). The record itself lets `jsonrpc` and the method name be
      any string; `ValidRequest` says what they are meant to be. The source
      calls the method field `method`, a reserved word here. */
  datatype JsonRpcRequest<T> = JsonRpcRequest(
    jsonrpc: string,
    methodName: string,
    params: seq<T>,
    id: U64)

  /** The JSON-RPC 2.0 error object (section 5.1). `D` stands for the
      optional structured data, an arbitrary JSON value. */
  datatype JsonRpcError<D> = JsonRpcError(
    code: I32,
    message: string,
    data: Option<D>)

  /** The JSON-RPC 2.0 response object (section 5). Nothing in the record
      keeps `result` and `error` from being both present or both absent. */
  datatype JsonRpcResponse<T, D> = JsonRpcResponse(
    jsonrpc: string,
    result: Option<T>,
    error: Option<JsonRpcError<D>>,
    id: U64)

  const JsonRpcVersion: string := "2.0"

  /** A request as `NewRequest` builds it: version "2.0", which the field's
      documentation demands, and a method string the registry recognises. */
  predicate ValidRequest<T>(r: JsonRpcRequest<T>) {
    r.jsonrpc == JsonRpcVersion && FromStr(r.methodName).Some?
  }

  /** Builds a request for a method of the registry; the version is fixed,
      never taken from the caller. */
  function NewRequest<T>(m: LspMethod, params: seq<T>, id: U64): (r: JsonRpcRequest<T>)
    ensures r.jsonrpc == "2.0"
    ensures r.methodName == ToString(m)
    ensures FromStr(r.methodName) == Some(m)
    ensures r.params == params && r.id == id
    ensures ValidRequest(r)
  {
    EncodeThenDecode(m);
    JsonRpcRequest(JsonRpcVersion, ToString(m), params, id)
  }

  /** Every valid request is the one `NewRequest` builds from its decoded
      method, parameters and id. */
  lemma ValidRequestIsBuilt<T>(r: JsonRpcRequest<T>)
    requires ValidRequest(r)
    ensures r == NewRequest(FromStr(r.methodName).value, r.params, r.id)
  {
    DecodeIffEncode(r.methodName, FromStr(r.methodName).value);
  }

  /** The request the client's entry point builds: `initialize`, no
      parameters, id 1. */
  lemma InitializeRequest<T>()
    ensures NewRequest<T>(Initialize, [], 1) == JsonRpcRequest("2.0", "initialize", [], 1)
  {
  }

  /** The exclusivity that section 5 of JSON-RPC 2.0 demands of a response:
      exactly one of `result` and `error`. The record does not enforce it. */
  predicate WellFormedResponse<T, D>(r: JsonRpcResponse<T, D>) {
    r.jsonrpc == JsonRpcVersion && r.result.Some? != r.error.Some?
  }
}
