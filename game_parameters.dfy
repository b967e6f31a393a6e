/** The game parameters and the values computed from them. */
module GameParameters {
  const ImageSize: int := 32
  const CubeCountHorizontal: int := 12
  const CubeCountVertical: int := 22
  const EventResetTime: int := 150
  const StartInterval: int := 1000
  const MinInterval: int := 100
  const DropShapeInterval: int := 1
  const MoveWhenDownInterval: int := 300
  const LinesNeededForLevelup: int := 5
  const MaxSpeedupLevels: int := 10
  const StartLevel: int := 1
  const PointsForLines1: int := 40
  const PointsForLines2: int := 100
  const PointsForLines3: int := 300
  const PointsForLines4: int := 1200
  const LineDestroyBlinkCount: int := 2
  const LineDestroyBlinkInterval: int := 100
  const LineDestroyBlinkOpacity: real := 0.5
  const FullOpacity: real := 1.0
  const GhostShapeOpacity: real := 0.2
  const MediaPlayerVolumeStep: real := 0.1
  const MediaPlayerVolumeInitial: real := 0.5

  const MaxCubeIndexHorizontal: int := CubeCountHorizontal - 1
  const MaxCubeIndexVertical: int := CubeCountVertical - 1

  /** Each level-up shortens the interval by this much: (1000 - 100) / 10 = 90. */
  const SpeedupPerLevelup: int := (StartInterval - MinInterval) / MaxSpeedupLevels

  /** C# integer division truncates towards zero; on a negative dividend that differs from Dafny's. */
  function TruncDiv(a: int, b: int): int
    requires b > 0
  {
    if a >= 0 then a / b else -((-a) / b)
  }

  /** The game field's pixel geometry: (12 - 1) and (22 - 1) cells of 32 pixels, centred. */
  const GameFieldWidth: int := MaxCubeIndexHorizontal * ImageSize
  const GameFieldHeight: int := MaxCubeIndexVertical * ImageSize
  const GameFieldLeft: int := TruncDiv(-GameFieldWidth, 2)
  const GameFieldTop: int := TruncDiv(-GameFieldHeight, 2) + ImageSize / 2

  lemma GeometryValues()
    ensures SpeedupPerLevelup == 90
    ensures GameFieldLeft == -176 && GameFieldTop == -320
  {
  }
}
