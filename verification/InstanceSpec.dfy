/** The part of an RpaasInstance's spec that routes, blocks, binds and certificates live in. */
module InstanceSpec {
  import opened Ordering

  datatype ValueSource = ValueSource(configMap: string, key: string, namespace: string)

  datatype Value = Value(value: string, valueFrom: Option<ValueSource>)

  const SERVER_BLOCK := "server"

  function Text(content: string): Value {
    Value(content, None)
  }

  datatype Location = Location(
    serverName: string, path: string, destination: string, content: Option<Value>, forceHTTPS: bool)

  datatype ServerBlock = ServerBlock(serverName: string, blockType: string, content: Value, extend: bool)

  datatype Bind = Bind(name: string, host: string)

  datatype NginxTLS = NginxTLS(secretName: string, hosts: seq<string>)

  /** A nil block map or slice and an empty one are the same value here. */
  datatype Spec = Spec(
    binds: seq<Bind>, blocks: map<string, Value>, serverBlocks: seq<ServerBlock>, locations: seq<Location>)

  const EMPTY_SPEC := Spec([], map[], [], [])

  function RouteKey(l: Location): (string, string) {
    (l.serverName, l.path)
  }

  function BlockKey(b: ServerBlock): (string, string) {
    (b.serverName, b.blockType)
  }

  function HostOf(b: Bind): string {
    b.host
  }

  function NameOf(b: Bind): string {
    b.name
  }
}
