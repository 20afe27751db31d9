/**
  Option and Result, and the failures the modelled library raises.
  A PHP method that returns null becomes `None`; one that throws becomes `Failure`.
 */
module Wrappers {

  datatype Option<+T> = None | Some(value: T) {
    function GetOr(default: T): T {
      match this
      case Some(v) => v
      case None => default
    }
  }

  datatype Result<+R> = Success(value: R) | Failure(error: Error) {
    /** The value passed through `f`; a failure stays the same failure. */
    function Map<U>(f: R -> U): Result<U> {
      match this
      case Success(v) => Success(f(v))
      case Failure(e) => Failure(e)
    }
  }

  /** The exceptions and errors raised by the modelled code. */
  datatype Error =
    | NoDevicesFound          // RuntimeException "No devices found on the current network"
    | TopologyLookupFailed    // RuntimeException "Failed to lookup the topology info for this speaker"
    | NoSpeakerForIp(ip: string) // InvalidArgumentException "No speaker found for the IP address ..."
    | NoControllerFound       // RuntimeException "No controller found on the current network"
    | CallOnNull              // Error: a method called on the null that getController() returned
    | MissingHost             // TypeError: addIp() given null because the location had no host
    | NoReturnValue           // TypeError: a `: Stream` method ended without returning
}
