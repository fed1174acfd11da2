/** The size of the simulated disk. */
module DiskGeometry {
  const SectorsPerTrack: int := 32
  const NumTracks: int := 32
  const NumSectors: int := SectorsPerTrack * NumTracks
}
