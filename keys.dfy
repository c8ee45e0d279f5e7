/**
 * The key codes the pocket-pet screens receive (LVGL's key codes, as the
 * application header defines them): up 17, down 18, right 19, left 20,
 * enter 10 and escape 27.
 */
module Keys {
  datatype Key = Up | Down | Left | Right | Enter | Esc | Other

  /** The key a code stands for. */
  function KeyOf(code: int): (k: Key)
    ensures k == Other <==> code !in {17, 18, 19, 20, 10, 27}
  {
    if code == 17 then Up
    else if code == 18 then Down
    else if code == 19 then Right
    else if code == 20 then Left
    else if code == 10 then Enter
    else if code == 27 then Esc
    else Other
  }
}
