/** The two supported room versions and the switches that set them apart. */
module RoomVersions {

  datatype RoomIdFormat = OpaqueDomain | CreateEventHash

  datatype RoomVersion = RoomVersion(
    id: string,
    roomIdFormat: RoomIdFormat,
    createInAuthEvents: bool,
    createCarriesRoomId: bool,
    additionalCreators: bool,
    creatorsOutrankPowerLevels: bool)

  const ROOM_VERSION_11 := "11"
  const ROOM_VERSION_12 := "12"

  const VERSION_11 := RoomVersion(ROOM_VERSION_11, OpaqueDomain, true, true, false, false)
  const VERSION_12 := RoomVersion(ROOM_VERSION_12, CreateEventHash, false, false, true, true)

  predicate Supported(version: RoomVersion) {
    version == VERSION_11 || version == VERSION_12
  }
}
