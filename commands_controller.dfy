/**
 * `getBrokerConnectionStatus` (src/components/commands/commands_controller.ts):
 * the shared broker client's `connected` and `disconnecting` flags, read at
 * the time of the request, reported as one `MQTTConnectionStatus` string.
 */
module CommandsController {
  import opened MqttTypes

  /** `res.status(status).send({ success, data })`. */
  datatype StatusReply = StatusReply(status: int, success: bool, data: string)

  function GetBrokerConnectionStatus(connected: bool, disconnecting: bool): (r: StatusReply)
    ensures r.status == 200 && r.success
    ensures connected ==> r.data == Connected.Value()
    ensures !connected && disconnecting ==> r.data == Disconnecting.Value()
    ensures !connected && !disconnecting ==> r.data == Disconnected.Value()
    ensures StatusFromValue(r.data).Some?
  {
    if connected then StatusReply(200, true, "connected")
    else if disconnecting then StatusReply(200, true, "disconnecting")
    else StatusReply(200, true, "disconnected")
  }

  /** `disconnecting` is consulted only when the client is not connected. */
  lemma ConnectedWins(disconnecting: bool)
    ensures GetBrokerConnectionStatus(true, disconnecting) == GetBrokerConnectionStatus(true, !disconnecting)
  {
  }

  /** The reply tells whether the client was connected and, when it was not, whether it was disconnecting. */
  lemma ReportedStatusDetermined(c1: bool, d1: bool, c2: bool, d2: bool)
    requires GetBrokerConnectionStatus(c1, d1) == GetBrokerConnectionStatus(c2, d2)
    ensures c1 == c2
    ensures !c1 ==> d1 == d2
  {
  }
}
