/** Outbound commands to the physical relays, as the transport carries them. */
module Messages {
  import opened JsonValue

  datatype CommandType = Ping | Actuator | Valve

  /**
   * `mac_address` names the device the command is for; `actuator_mac_address`
   * names the relay that must forward it (only used for valve commands).
   */
  datatype Command = Command(
    commandType: CommandType,
    macAddress: string,
    actuatorMacAddress: string,
    payload: Json)
}
