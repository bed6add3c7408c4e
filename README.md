# LSP method registry and JSON-RPC envelopes

A Dafny model of `src/jsonrpc.rs` from lsp-study. This is the message vocabulary of a client that talks JSON-RPC 2.0 to a Language Server Protocol server. The model covers:

- `LspMethod`: a closed enumeration of the 21 LSP methods the client supports (`JsonRpc.LspMethod`).
- `to_string`: the total encoding table from method to wire string (`JsonRpc.ToString`). It is total by construction, because the `match` is exhaustive.
- `from_str`: the separate, partial decoding table from string back to method (`JsonRpc.FromStr`, returning `Wrappers.Option`).
- `JsonRpcRequest`, `JsonRpcResponse` and `JsonRpcError`: the three envelope records, as datatypes.

The request payload `T` and the error's `serde_json::Value` data are type parameters. The Rust `u64` id and `i32` code are subset types of `int` with the same ranges. Borrowed `&str` and owned `String` are both `string`.

The source has two independent tables, so the model keeps them as two functions. The lemmas show that the tables agree: a round trip in both directions, injectivity, rejection of every other string, and exactly 21 recognised strings. `EncodeThenDecode`, `DecodeIffEncode`, `WireStringsDecodable` and `WireStringCount` rest on `ToStringInjective`, which is proved by cases on one argument, and `WireStringCount` counts the encodings by induction over the method list (`ImageCardinality`).

Two wire strings are not the standard LSP names, and the model keeps them as the code writes them:

- `textDocument/documentHighlights`
- `workspace/references`

The request field `method` is a reserved word in Dafny, so it is named `methodName`.

## Model

| member | source | states |
|---|---|---|
| `JsonRpc.AllMethods` | src/jsonrpc.rs:5-48 | The enumeration has exactly 21 variants, listed pairwise distinct. |
| `JsonRpc.AllMethodsComplete` | src/jsonrpc.rs:5-48 | The enumeration is closed: every `LspMethod` value is among the 21 listed. |
| `JsonRpc.ToString` | src/jsonrpc.rs:52-76 | Total by its exhaustive match, one literal per variant. Its properties are proved in `ToStringInjective`, `WireStringShape` and `TableEntries`. |
| `JsonRpc.WireStringShape` | src/jsonrpc.rs:52-76 | Each method's wire string is `initialize` or `shutdown`, or starts with `textDocument/` or `workspace/`. |
| `JsonRpc.FromStr` | src/jsonrpc.rs:79-104 | A decoded method always encodes back to the input string. When the result is `None`, no method encodes to the input. |
| `JsonRpc.ToStringInjective` | src/jsonrpc.rs:54-74 | Two methods with the same wire string are the same method. |
| `JsonRpc.EncodeThenDecode` | src/jsonrpc.rs:52-104 | For every method `m`, decoding `ToString(m)` gives `Some(m)`. |
| `JsonRpc.DecodeIffEncode` | src/jsonrpc.rs:52-104 | `FromStr(s) == Some(m)` holds if and only if `ToString(m) == s`: both tables describe the same relation. |
| `JsonRpc.WireStringsDecodable` | src/jsonrpc.rs:80-102 | A string is in the image of the encoding table if and only if the decoder accepts it. |
| `JsonRpc.WireStringCount` | src/jsonrpc.rs:54-74 | The encoding table yields exactly 21 distinct wire strings, one per method. |
| `JsonRpc.RejectsUnknownStrings` | src/jsonrpc.rs:102 | These strings decode to `None`: the empty string, `not/a/method`, the variant name `Initialize`, an upper-case spelling, the standard `textDocument/documentHighlight`, and a table string with a trailing slash. |
| `JsonRpc.TableEntries` | src/jsonrpc.rs:54-74 | Fixes specific entries exactly: `initialize`, `textDocument/didChange`, `textDocument/formatting`, `workspace/symbol`, and the two non-standard strings. |
| `JsonRpc.NewRequest` | src/jsonrpc.rs:109-118 | A built request has version `"2.0"` and the chosen method's wire string as its method. That string decodes back to the chosen method. Params and id are the caller's values unchanged. The request satisfies `ValidRequest`. |
| `JsonRpc.JsonRpcRequest` | src/jsonrpc.rs:109-118 | The four fields with their types: version string, method string, parameter list, 64-bit id. The record itself accepts any version and method string; `NewRequest` and `ValidRequest` pin them. |
| `JsonRpc.JsonRpcResponse` | src/jsonrpc.rs:122-131 | The four fields with their types: version string, optional result, optional error object, 64-bit id. Nothing enforces the version or result/error exclusivity. |
| `JsonRpc.JsonRpcError` | src/jsonrpc.rs:136-143 | Code as a 32-bit signed integer, message, and optional opaque data. |
| `JsonRpc.ValidRequestIsBuilt` | src/jsonrpc.rs:110-113 | Every request with version `"2.0"` and a recognised method string is the one `NewRequest` builds from its decoded method, params and id. |
| `JsonRpc.InitializeRequest` | src/main.rs:5-10 | The request the entry point builds has version `"2.0"`, method `initialize`, empty params and id 1. |

## Left out

- The serde derives are not modelled (src/jsonrpc.rs:4, 108, 121, 135). This covers JSON text encoding and decoding, and the derived `Serialize` on `LspMethod` (which would emit variant names). Serde is a foreign library whose code is not part of this model.
- The contents of the payload `T` and of the error's `data` value are opaque type parameters.
- The response's `result`/`error` exclusivity comes from section 5 of the JSON-RPC 2.0 specification. The records do not enforce it. `WellFormedResponse` states it as a predicate only, and nothing claims the code guarantees it.
- The records do not enforce `jsonrpc == "2.0"`. Only `NewRequest` fixes it, and `ValidRequest` states it.
- Uniqueness of `id`, and correlation of a response to its request, are the caller's concern. The code does neither.
- `src/main.rs` is not modelled beyond the request it builds. Its serialisation call and its printing are I/O.
- A standard table of JSON-RPC/LSP error codes is not part of this model. The source defines none, and `code` accepts any 32-bit value.
