// The timer's state as the main button encodes it: mainFunction holds the
// handler the next press runs, so it tells Idle, Running and Paused apart.

module MainButton {

  /** The main button's next action (mainFunction), which is the timer's state. */
  datatype MainAction =
    | StartAction    // Idle: the button reads 'Start' and calls beginCountdown
    | PauseAction    // Running: 'Pause' calls pauseTimer
    | ResumeAction   // Paused: 'Resume' calls startTimer with no delay
}
