/** The configuration document the community login widget edits.

    On the wire it is `{community: {host, port, protocol, productType,
    indexErrorMessage}, method}`. `productType` and `indexErrorMessage` are
    not editable; the model carries the loaded values through unchanged.
 */
module Config {

  datatype Protocol = HTTP | HTTPS

  datatype Community = Community(
    host: string,
    port: int,
    protocol: Protocol,
    productType: string,
    indexErrorMessage: string)

  datatype Config = Config(community: Community, loginType: string)

  /** The connection target: the part of a config that a validation answers for,
      and the data sent when security types are fetched. */
  datatype Target = Target(host: string, port: int, protocol: Protocol)

  function TargetOf(c: Config): Target {
    Target(c.community.host, c.community.port, c.community.protocol)
  }

  function WithHost(c: Config, host: string): Config {
    c.(community := c.community.(host := host))
  }

  function WithPort(c: Config, port: int): Config {
    c.(community := c.community.(port := port))
  }

  function WithProtocol(c: Config, protocol: Protocol): Config {
    c.(community := c.community.(protocol := protocol))
  }

  /** When an edit moves the connection target: a host, port or protocol edit
      does exactly when the new value differs from the old one; a login-type
      edit never does. */
  lemma EditMovesTarget(c: Config, host: string, port: int, protocol: Protocol, loginType: string)
    ensures TargetOf(WithHost(c, host)) == TargetOf(c) <==> host == c.community.host
    ensures TargetOf(WithPort(c, port)) == TargetOf(c) <==> port == c.community.port
    ensures TargetOf(WithProtocol(c, protocol)) == TargetOf(c) <==> protocol == c.community.protocol
    ensures TargetOf(c.(loginType := loginType)) == TargetOf(c)
  {
  }

  /** Editing a field away and back again gives the original config. */
  lemma EditBack(c: Config, host: string, port: int, protocol: Protocol)
    ensures WithHost(WithHost(c, host), c.community.host) == c
    ensures WithPort(WithPort(c, port), c.community.port) == c
    ensures WithProtocol(WithProtocol(c, protocol), c.community.protocol) == c
  {
  }
}
