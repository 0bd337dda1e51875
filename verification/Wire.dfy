/** The messages of `config.proto`. A path type or policy string is represented by
    the value it names; `OtherType` and `OtherPolicy` stand for every other string. */
module Wire {
  import opened Text

  datatype PathType = Exact | Prefix | ImplementationSpecific | OtherType(name: string)

  datatype LbPolicy = RoundRobin | LeastConn | OtherPolicy(name: string)

  datatype Endpoint = Endpoint(address: string, port: int, weight: int)

  datatype HeaderRewrite = HeaderRewrite(name: string, mode: string, value: string)

  datatype AuthConfig = AuthConfig(
    url: string, signin: string, responseHeaders: seq<string>, skipPaths: seq<string>, cookieName: string)

  datatype Route = Route(host: string, path: string, pathType: PathType, cluster: string, priority: int)

  datatype Cluster = Cluster(
    name: string, lbPolicy: LbPolicy, endpoints: seq<Endpoint>, timeoutMs: int, retries: int,
    backendProtocol: string, requestHeaders: seq<HeaderRewrite>, auth: Option<AuthConfig>)

  /** Go's conversion to `int32`: the value modulo 2^32, read as a signed number. */
  function ToInt32(x: int): (r: int)
    ensures -0x8000_0000 <= r < 0x8000_0000
    ensures -0x8000_0000 <= x < 0x8000_0000 ==> r == x
  {
    (x + 0x8000_0000) % 0x1_0000_0000 - 0x8000_0000
  }
}
