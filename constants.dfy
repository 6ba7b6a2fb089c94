/**
 * The build constants every configuration reads: the mode, whether it is
 * production, the asset size that triggers a warning, whether source maps
 * are wanted, and the filename patterns.
 */
module Constants {

  /** The mode the scripts are shipped with. */
  const Mode := "production"

  /** `isEnvProduction`: the comparison every configuration branches on. */
  predicate IsEnvProduction(mode: string)
    ensures IsEnvProduction(mode) <==> mode == Mode
    ensures IsEnvProduction(mode) ==> |mode| == 10 && mode[0] == 'p'
  {
    mode == "production"
  }

  /** `WARN_FILE_SIZE`: five mebibytes, in bytes. */
  const WarnFileSize: nat := 5 * 1024 * 1024

  /** `sourceMap` as shipped. */
  const SourceMap := true

  const ChunkFilename := "[content:10]"
  const FileName := "[name]:[content:10]"

  /** The browser range handed to Babel as its targets. */
  const Browserslist := "> 0.01%"

  /**
   * The two constants a configuration depends on, made a record so that a
   * configuration can be stated for every combination and not only the
   * shipped one.
   */
  datatype Settings = Settings(mode: string, sourceMap: bool) {
    predicate IsProduction() {
      IsEnvProduction(mode)
    }
  }

  /** The settings as shipped. */
  const Shipped := Settings(Mode, SourceMap)

  /** The shipped constants: production mode, source maps asked for, a 5242880-byte limit. */
  lemma ShippedConstants()
    ensures Shipped.IsProduction() && Shipped.sourceMap
    ensures WarnFileSize == 5242880
    ensures forall mode :: IsEnvProduction(mode) <==> mode == Mode
  {
  }
}
