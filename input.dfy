/** The abstract actions the input layer hands to the scene and the renderer (src/input/mod.rs). */
module Input {

  type I16 = x: int | -0x8000 <= x < 0x8000

  datatype MoveDirection = Right | Left | Up | Down | Forward | Backward

  /**
   * `RotateCamera` carries a mouse delta in thousandths of normalized screen space,
   * as two 16-bit integers so that the action can be hashed.
   */
  datatype SceneAction = Move(dir: MoveDirection) | RotateCamera(deltaX: I16, deltaY: I16)

  datatype InputAction = Quit | ChangeRenderType | ActionOnScene(action: SceneAction)
}
