/** Wire types of the push gateway and of the relay endpoints, reduced to the
    fields the queue, the cache and the pipeline look at. */
module Api {
  import opened Prelude

  /** Identifies one device: where a push goes and how badges coalesce. */
  datatype Device = Device(appId: string, pushkey: string)

  /** `body` stands for the metadata nobody here inspects (room, sender, counts). */
  datatype Notification = Notification(devices: seq<Device>, eventId: Option<string>, body: nat)

  /** A JSON value as it crosses the relay; it may fail to parse on arrival. */
  datatype Value = Readable(notification: Notification) | Unreadable(raw: nat)

  datatype PollEntry = PollEntry(id: nat, notification: Value)
  datatype AckRequest = AckRequest(acked: seq<nat>, rejectedPushkeys: seq<Device>)
}
