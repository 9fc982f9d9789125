/** Shared result types for the parking-stop injector model. */
module Common {

  datatype Option<+T> = None | Some(value: T)

  /** The failures a run can end in, named after what the scripts raise. */
  datatype Error =
    | NoParkingAreaElements   // ValueError: the additional file yields no usable <parkingArea>
    | NoVehicleElements       // ValueError: the route file has no <vehicle> (standalone script only)
    | EmptyParkingIdList      // IndexError: `items[-1]` on an empty id list when a stop is drawn
    | EmptyDurationRange      // ValueError: `randint(dur_min, dur_max)` with dur_min > dur_max

  datatype Result<+T> = Ok(value: T) | Err(error: Error)
}
