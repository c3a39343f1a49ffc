/** The application's shared records (src/types.ts) and the shape of an
    HTTP reply produced by the serverless handlers. */
module Types {
  import opened Wrappers

  /** A station of the directory. `lat`/`lon` are the optional coordinates
      the station handler copies from the upstream record; they are only
      ever copied, never computed with. */
  datatype Station = Station(
    id: string,
    name: string,
    nameEn: string,
    lat: Option<real>,
    lon: Option<real>)

  /** The `{id, name}` pair echoed by the schedule handler. */
  datatype StationRef = StationRef(id: string, name: string)

  /** The four declared train states. */
  datatype Status = OnTime | Delayed | Cancelled | Unknown

  /** One candidate train between the queried stations. `direction` is 0
      for clockwise, anything else counter-clockwise; times are "HH:mm". */
  datatype TrainInfo = TrainInfo(
    trainNo: string,
    trainType: string,
    direction: int,
    originStation: string,
    destinationStation: string,
    departureTime: string,
    arrivalTime: string,
    delay: int,
    status: Status)

  datatype ScheduleResponse = ScheduleResponse(
    date: string,
    origin: StationRef,
    destination: StationRef,
    trains: seq<TrainInfo>)

  /** A JSON body: either the payload or `{error: message}`. */
  datatype Body<+T> = Json(value: T) | ErrorJson(error: string)

  /** An HTTP status code with its JSON body. */
  datatype HttpReply<+T> = HttpReply(status: nat, body: Body<T>)
}
