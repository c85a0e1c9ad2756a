/** The presets of mount options that `util/mount_manager.py` offers to the
    user interface. */
module MountPresets {
  import Mounts

  // ---------------------------------------------------------------------
  // get_mount_options_presets

  /** `get_mount_options_presets()` */
  function MountOptionsPresets(): (r: map<string, string>)
    ensures |r| == 7
    ensures "Default" in r && r["Default"] == Mounts.DefaultMountOptions
    ensures forall k :: k in r ==> r[k] != ""
  {
    map["Default" := Mounts.DefaultMountOptions, "Read-Only" := "ro,sync", "High Performance" := "rw,async,noatime",
        "Soft Mount" := "rw,soft,timeo=10", "Hard Mount" := "rw,hard,intr", "NFSv4" := "rw,sync,vers=4", "NFSv3" := "rw,sync,vers=3"]
  }
}
