/** The modes the dialogs are opened in. The client's enum declares only
    `Edit` and `View`, yet `DM` and `CurrentUser` are used as modes too; the
    model gives all four. */
module DialogModes {
  datatype DialogMode = Edit | View | DM | CurrentUser
}
