/** The environment-detection router: the detector is chosen once, at
    construction, which throws on a platform without one.  What each
    detector's detect() gives is a parameter; the environment snapshot
    is not part of this model and is a type parameter. */
module CompositeEnvironmentDetector {
  import opened Wrappers
  import opened Platform

  /** The detectors the router can use. */
  datatype DetectorClass = Injected(className: string) | LinuxDetector | MacOsDetector | WindowsDetector

  /** createDetector: Linux, macOS and Windows have a detector; on any
      other platform, BSD included, the constructor throws. */
  function CreateDetector(os: Os): Result<DetectorClass> {
    if os.IsLinux() then Success(LinuxDetector)
    else if os.IsMacOs() then Success(MacOsDetector)
    else if os.IsWindows() then Success(WindowsDetector)
    else Failure(UnsupportedOs(os.family))
  }

  class CompositeEnvironmentDetector {
    /** Chosen once, at construction. */
    const detector: DetectorClass

    constructor Of(detector: DetectorClass)
      ensures this.detector == detector
    {
      this.detector := detector;
    }

    /** The PHP constructor: an injected detector is used as it is, with
        no platform test; otherwise createDetector decides. */
    static method Create(injected: Option<DetectorClass>, os: Os) returns (r: Result<CompositeEnvironmentDetector>)
      ensures injected.Some? ==> r.Success? && r.value.detector == injected.value
      ensures injected.None? ==> (r.Success? <==> CreateDetector(os).Success?)
      ensures injected.None? && r.Success? ==> r.value.detector == CreateDetector(os).value
      ensures injected.None? && r.Failure? ==> r.error == CreateDetector(os).error
      ensures r.Success? ==> fresh(r.value)
    {
      var d: DetectorClass;
      if injected.Some? {
        d := injected.value;
      } else {
        var created := CreateDetector(os);
        if created.Failure? {
          return Failure(created.error);
        }
        d := created.value;
      }
      var c := new CompositeEnvironmentDetector.Of(d);
      return Success(c);
    }

    /** detect(): the chosen detector's result, unchanged. */
    method Detect<T>(detectOf: DetectorClass -> Result<T>) returns (r: Result<T>)
      ensures r == detectOf(detector)
    {
      r := detectOf(detector);
    }
  }

  /** Construction fails exactly off Linux, macOS and Windows, BSD
      included, with the family in the message. */
  lemma CreateDetectorCases(os: Os)
    ensures CreateDetector(os).Failure? <==> !os.IsLinux() && !os.IsMacOs() && !os.IsWindows()
    ensures os.IsBSD() ==> CreateDetector(os).Failure?
    ensures CreateDetector(os).Failure? ==>
      CreateDetector(os).error == Error(UnsupportedOperatingSystem, "Unsupported operating system: " + os.family)
    ensures os.IsLinux() ==> CreateDetector(os) == Success(LinuxDetector)
    ensures os.IsMacOs() ==> CreateDetector(os) == Success(MacOsDetector)
    ensures os.IsWindows() ==> CreateDetector(os) == Success(WindowsDetector)
  {
  }
}
