/**
 * The shapes of what the build service's client hands to the commands. The
 * client itself (HTTP, JSON and TOML decoding) is not part of the model:
 * each command takes the client's reply as an input.
 */
module Api {
  import opened Wrappers

  /** A value inside a blueprint object, as far as the commands look at it. */
  datatype Value = Str(s: string) | NonString

  /** One blueprint as decoded from the server's JSON: an object of named fields. */
  datatype Blueprint = Blueprint(fields: map<string, Value>)

  /** A `name` / `version` pair: a module or package entry. */
  datatype NameVersion = NameVersion(name: string, version: string)

  /** How every command prints a module or package: indented `name-version`. */
  function Entry(nv: NameVersion): (e: string)
    ensures |e| == 5 + |nv.name| + |nv.version|
    ensures e[..4] == "    " && e[4..4 + |nv.name|] == nv.name
    ensures e[4 + |nv.name|] == '-' && e[5 + |nv.name|..] == nv.version
  {
    "    " + nv.name + "-" + nv.version
  }

  /** One `Entry` per pair, in order. */
  function Entries(nvs: seq<NameVersion>): seq<string>
  {
    seq(|nvs|, i requires 0 <= i < |nvs| => Entry(nvs[i]))
  }

  /** The allow-listed parts of a frozen blueprint that `freeze` prints. */
  datatype Parts = Parts(name: string, version: string, modules: seq<NameVersion>, packages: seq<NameVersion>)

  /** Why a blueprint could not be reduced to its parts: TOML encoding or decoding failed. */
  datatype ProjectionError = EncodeError(msg: string) | DecodeError(msg: string)

  /** One per-item error the server reports: an identifier and a message. */
  datatype ApiError = ApiError(id: string, msg: string)

  /** The server's error envelope. */
  datatype ApiResponse = ApiResponse(status: bool, errors: seq<ApiError>)

  /**
   * The reply to a request for frozen blueprints as JSON: either a transport
   * error, or the blueprints found together with the per-item errors.
   */
  datatype FrozenReply = TransportError(msg: string) | Frozen(blueprints: seq<Blueprint>, errors: seq<ApiError>)

  /** The reply to a request for frozen blueprints as TOML documents: (documents, response, error). */
  datatype TomlReply = TomlReply(documents: seq<string>, resp: Option<ApiResponse>, err: Option<string>)

  /** The blueprint summary inside a compose record. */
  datatype ComposeBlueprint = ComposeBlueprint(name: string, version: string, packages: seq<NameVersion>, modules: seq<NameVersion>)

  /**
   * A compose record. `deps` holds the text `%s` prints for each dependency
   * of the compose.
   */
  datatype ComposeInfo = ComposeInfo(
    id: string,
    queueStatus: string,
    blueprint: ComposeBlueprint,
    composeType: string,
    imageSize: int,
    deps: seq<string>)

  /** The reply to a compose-info request: (record, response, error). */
  datatype InfoReply = InfoReply(info: ComposeInfo, resp: Option<ApiResponse>, err: Option<string>)
}
