/** `ConnectionConfig` of the OPC UA driver: the server, whether its values
  * are polled and how often, how the driver signs in, and which value
  * qualities it keeps. A `null` string is `None`. */
module OpcUaConfig {
  import opened Wrappers

  /** How the driver signs in to the server. */
  datatype ConnectionType = Anonymous | UserName | Certificate

  /** A quality class a value's status code may have. */
  datatype NodeQualityType = Good | Uncertain | Bad

  datatype ConnectionConfig = ConnectionConfig(
    serverUrl: string,
    polling: bool,
    pollingSleepTime: int,
    connectionType: ConnectionType,
    userName: Option<string>,
    password: Option<string>,
    certificatePath: Option<string>,
    certificatePwd: Option<string>,
    certificateName: Option<string>,
    nodeQualityType: seq<NodeQualityType>)

  /** A new configuration for a server: not polled, polled every 1000 ms
    * when it is, anonymous, and with no credentials. */
  function NewConfig(serverUrl: string, nodeQualityType: seq<NodeQualityType>): ConnectionConfig {
    ConnectionConfig(serverUrl, false, 1000, Anonymous, None, None, None, None, None, nodeQualityType)
  }
}
